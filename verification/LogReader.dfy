/** The log reader (database/leveldb/db/log_reader.cc, reading from offset 0) and crash safety: any
    prefix of a written log reads back as the records that lie wholly inside it. */
module LogReader {
  import opened Bytes
  import opened LogFormat

  // ---------- The reader as a function ----------

  /** Bytes read from the file, the unread part of the last block read, whether that read was short,
      and the number of corruption reports. */
  datatype State = State(filePos: nat, buffer: seq<byte>, eof: bool, reports: nat)

  datatype Physical = Eof | BadRecord | Record(kind: byte, payload: seq<byte>)

  /** `ReadPhysicalRecord` returns the type byte or one of these, so a stored type of 5 or 6 is taken for them. */
  const EOF_CODE: byte := 5
  const BAD_RECORD_CODE: byte := 6

  /** What the caller of `ReadPhysicalRecord` makes of the number returned. */
  function Seen(p: Physical): Physical {
    if p.Record? && p.kind == EOF_CODE then Eof
    else if p.Record? && p.kind == BAD_RECORD_CODE then BadRecord
    else p
  }

  function Report(st: State): State { st.(reports := st.reports + 1) }

  function Drop(st: State): State { st.(buffer := []) }

  /** `file_->Read(kBlockSize)`: the next block, or what is left of the file. */
  function Refill(file: seq<byte>, st: State): State
    requires st.filePos <= |file|
  {
    var end := if st.filePos + BLOCK_SIZE <= |file| then st.filePos + BLOCK_SIZE else |file|;
    st.(buffer := file[st.filePos..end], filePos := end, eof := end - st.filePos < BLOCK_SIZE)
  }

  function LengthOf(b: seq<byte>): nat
    requires |b| >= HEADER_SIZE
  {
    b[4] as nat + 256 * b[5] as nat
  }

  /** A header and what follows it. */
  function ParsePhysical(sum: Checksum, checksum: bool, st: State): (Physical, State)
    requires |st.buffer| >= HEADER_SIZE
  {
    var b := st.buffer;
    var n := LengthOf(b);
    if HEADER_SIZE + n > |b| then (if st.eof then (Eof, Drop(st)) else (BadRecord, Report(Drop(st))))
    else if b[6] == 0 && n == 0 then (BadRecord, Drop(st))
    else if checksum && sum.Value(b[6..HEADER_SIZE + n]) != sum.unmask(FromLittleEndian(b[..4])) then
      (BadRecord, Report(Drop(st)))
    else (Record(b[6], b[HEADER_SIZE..HEADER_SIZE + n]), st.(buffer := b[HEADER_SIZE + n..]))
  }

  /** `ReadPhysicalRecord`. */
  function ReadPhysical(file: seq<byte>, sum: Checksum, checksum: bool, st: State): (r: (Physical, State))
    requires st.filePos <= |file|
    ensures r.1.filePos <= |file|
    ensures !r.0.Eof? ==> Unread(file, r.1) < Unread(file, st)
    decreases if |st.buffer| >= HEADER_SIZE then 0 else if st.eof then 1 else 2
  {
    if |st.buffer| >= HEADER_SIZE then ParsePhysical(sum, checksum, st)
    else if st.eof then (Eof, Drop(st))
    else ReadPhysical(file, sum, checksum, Refill(file, st))
  }

  function Unread(file: seq<byte>, st: State): nat
    requires st.filePos <= |file|
  {
    |file| - st.filePos + |st.buffer|
  }

  /** What one physical record makes of a read: the record is whole, the read has ended, or it goes on. */
  datatype Step = Whole(record: seq<byte>, st: State) | Ended(st: State) | GoOn(st: State, scratch: seq<byte>, inside: bool)

  /** The switch in `ReadRecord`. */
  function Handle(p: Physical, next: State, scratch: seq<byte>, inside: bool): (step: Step)
    ensures step.st == next || step.st == Report(next)
    ensures p.Eof? ==> step == Ended(next)
  {
    match Seen(p)
    case Eof => Ended(next)
    case BadRecord => GoOn(if inside then Report(next) else next, if inside then [] else scratch, false)
    case Record(kind, fragment) =>
      if kind == FULL then
        Whole(fragment, if inside && scratch != [] then Report(next) else next)
      else if kind == FIRST then
        GoOn(if inside && scratch != [] then Report(next) else next, fragment, true)
      else if kind == MIDDLE then
        if inside then GoOn(next, scratch + fragment, true) else GoOn(Report(next), scratch, false)
      else if kind == LAST then
        if inside then Whole(scratch + fragment, next) else GoOn(Report(next), scratch, false)
      else
        GoOn(Report(next), [], false)
  }

  /** `ReadRecord` with `scratch` and `in_fragmented_record` as they stand. */
  function ReadRecord(file: seq<byte>, sum: Checksum, checksum: bool, st: State, scratch: seq<byte>, inside: bool): (r: (Option<seq<byte>>, State))
    requires st.filePos <= |file|
    ensures r.1.filePos <= |file|
    ensures r.0.Some? ==> Unread(file, r.1) < Unread(file, st)
    decreases Unread(file, st)
  {
    var (p, next) := ReadPhysical(file, sum, checksum, st);
    match Handle(p, next, scratch, inside)
    case Whole(record, after) => (Some(record), after)
    case Ended(after) => (None, after)
    case GoOn(after, collected, on) => ReadRecord(file, sum, checksum, after, collected, on)
  }

  // ---------- Types that are codes ----------

  /** A physical record of a type the writer does not use. */
  predicate Foreign(p: Physical) {
    p.Record? && p.kind !in {FULL, FIRST, MIDDLE, LAST}
  }

  /** A physical record that is returned was not reported by `ReadPhysicalRecord`. */
  lemma {:induction false} RecordNotReported(file: seq<byte>, sum: Checksum, checksum: bool, st: State)
    requires st.filePos <= |file|
    ensures ReadPhysical(file, sum, checksum, st).0.Record? ==> ReadPhysical(file, sum, checksum, st).1.reports == st.reports
    decreases if |st.buffer| >= HEADER_SIZE then 0 else if st.eof then 1 else 2
  {
    hide FromLittleEndian;
    if |st.buffer| < HEADER_SIZE && !st.eof {
      RecordNotReported(file, sum, checksum, Refill(file, st));
    }
  }

  /**
   * What a foreign type does: 5 ends the read, and every other goes on without the fragments
   * collected so far.  It is reported if and only if it is neither 5 nor 6, or it is 6 inside
   * a fragmented record.
   */
  lemma ForeignTypeExact(file: seq<byte>, sum: Checksum, checksum: bool, st: State, scratch: seq<byte>, inside: bool)
    requires st.filePos <= |file| && Foreign(ReadPhysical(file, sum, checksum, st).0)
    ensures var (p, next) := ReadPhysical(file, sum, checksum, st);
            var after := Handle(p, next, scratch, inside).st;
            && (after.reports == st.reports + 1 <==> p.kind !in {EOF_CODE, BAD_RECORD_CODE} || (p.kind == BAD_RECORD_CODE && inside))
            && (after.reports == st.reports <==> p.kind == EOF_CODE || (p.kind == BAD_RECORD_CODE && !inside))
            && (after.buffer, after.filePos, after.eof) == (next.buffer, next.filePos, next.eof)
            && ReadRecord(file, sum, checksum, st, scratch, inside) ==
                 if p.kind == EOF_CODE then (None, after)
                 else ReadRecord(file, sum, checksum, after, if p.kind == BAD_RECORD_CODE && !inside then scratch else [], false)
  {
    hide ReadPhysical;
    RecordNotReported(file, sum, checksum, st);
  }

  // ---------- How a read ends ----------

  /** The physical records that one call of `ReadRecord` reads. */
  function Physicals(file: seq<byte>, sum: Checksum, checksum: bool, st: State, scratch: seq<byte>, inside: bool): (ps: seq<Physical>)
    requires st.filePos <= |file|
    ensures ps != []
    decreases Unread(file, st)
  {
    var (p, next) := ReadPhysical(file, sum, checksum, st);
    match Handle(p, next, scratch, inside)
    case Whole(_, _) => [p]
    case Ended(_) => [p]
    case GoOn(after, collected, on) => [p] + Physicals(file, sum, checksum, after, collected, on)
  }

  /** A short read is the last. */
  predicate AtEnd(file: seq<byte>, st: State) {
    st.filePos <= |file| && (st.eof ==> st.filePos == |file|)
  }

  lemma {:induction false} PhysicalAtEnd(file: seq<byte>, sum: Checksum, checksum: bool, st: State)
    requires AtEnd(file, st)
    ensures var (p, next) := ReadPhysical(file, sum, checksum, st); AtEnd(file, next) && (p.Eof? ==> Unread(file, next) == 0)
    decreases if |st.buffer| >= HEADER_SIZE then 0 else if st.eof then 1 else 2
  {
    hide FromLittleEndian;
    if |st.buffer| < HEADER_SIZE && !st.eof {
      PhysicalAtEnd(file, sum, checksum, Refill(file, st));
    }
  }

  /** What ends a read: the end of the file, or a record of type 5. */
  predicate Ends(p: Physical) {
    p.Eof? || (p.Record? && p.kind == EOF_CODE)
  }

  lemma HandleEnds(p: Physical, next: State, scratch: seq<byte>, inside: bool)
    ensures Handle(p, next, scratch, inside).Ended? <==> Ends(p)
  {
  }

  function Last(ps: seq<Physical>): Physical
    requires ps != []
  {
    ps[|ps| - 1]
  }

  lemma LastOfMore(p: Physical, rest: seq<Physical>)
    requires rest != []
    ensures Last([p] + rest) == Last(rest)
  {
  }

  /**
   * How a call of `ReadRecord` ends, in any file: it returns no record if and only if the
   * last physical record it read was the end of the file, and then every byte has been
   * read, or one of type 5, and then whatever is behind it has not.
   */
  lemma {:induction false} ReadEndsExact(file: seq<byte>, sum: Checksum, checksum: bool, st: State, scratch: seq<byte>, inside: bool)
    requires AtEnd(file, st)
    ensures var (r, next) := ReadRecord(file, sum, checksum, st, scratch, inside);
            var last := Last(Physicals(file, sum, checksum, st, scratch, inside));
            && AtEnd(file, next)
            && (r == None <==> Ends(last))
            && (last.Eof? ==> Unread(file, next) == 0)
            && (r == None && Unread(file, next) > 0 ==> last.Record? && last.kind == EOF_CODE)
    decreases Unread(file, st)
  {
    hide ReadPhysical, Handle, Last;
    PhysicalAtEnd(file, sum, checksum, st);
    var (p, next) := ReadPhysical(file, sum, checksum, st);
    var step := Handle(p, next, scratch, inside);
    HandleEnds(p, next, scratch, inside);
    if step.GoOn? {
      ReadEndsExact(file, sum, checksum, step.st, step.scratch, step.inside);
      LastOfMore(p, Physicals(file, sum, checksum, step.st, step.scratch, step.inside));
    } else {
      OnlyLast(p);
    }
  }

  lemma OnlyLast(p: Physical)
    ensures Last([p]) == p
  {
  }

  /** All records from `st` on, as repeated calls return them. */
  function ReadAll(file: seq<byte>, sum: Checksum, checksum: bool, st: State): seq<seq<byte>>
    requires st.filePos <= |file|
    decreases Unread(file, st)
  {
    var (r, next) := ReadRecord(file, sum, checksum, st, [], false);
    match r
    case None => []
    case Some(record) => [record] + ReadAll(file, sum, checksum, next)
  }

  const FRESH := State(0, [], false, 0)

  // ---------- Examples ----------

  /** A physical record of type `kind` without payload, and a whole record behind it. */
  function TwoRecords(kind: byte): seq<byte> { [0, 0, 0, 0, 0, 0, kind, 0, 0, 0, 0, 1, 0, 1, 9] }

  lemma FirstOfTwo(sum: Checksum, kind: byte)
    requires kind != 0
    ensures ReadPhysical(TwoRecords(kind), sum, false, FRESH) == (Record(kind, []), State(15, TwoRecords(kind)[7..], true, 0))
  {
    hide FromLittleEndian;
    var file := TwoRecords(kind);
    var full := Refill(file, FRESH);
    assert full.buffer == file && file[7..7] == [];
    assert ReadPhysical(file, sum, false, full) == ParsePhysical(sum, false, full);
  }

  lemma SecondOfTwo(sum: Checksum, kind: byte)
    ensures ReadPhysical(TwoRecords(kind), sum, false, State(15, TwoRecords(kind)[7..], true, 0)) == (Record(FULL, [9]), State(15, [], true, 0))
  {
    hide FromLittleEndian;
    var b := TwoRecords(kind)[7..];
    assert b == [0, 0, 0, 0, 1, 0, 1, 9] && b[7..8] == [9] && b[8..] == [];
  }

  /** A file with a record of type 5 and a whole record behind it reads as empty, without a report. */
  lemma TypeFiveExample(sum: Checksum)
    ensures var (r, next) := ReadRecord(TwoRecords(EOF_CODE), sum, false, FRESH, [], false);
            r == None && next.reports == 0 && Unread(TwoRecords(EOF_CODE), next) == 8
  {
    hide ReadPhysical;
    FirstOfTwo(sum, EOF_CODE);
  }

  /** One of type 6 is skipped without a report, and the whole record behind it returned. */
  lemma TypeSixExample(sum: Checksum)
    ensures var (r, next) := ReadRecord(TwoRecords(BAD_RECORD_CODE), sum, false, FRESH, [], false);
            r == Some([9]) && next.reports == 0 && Unread(TwoRecords(BAD_RECORD_CODE), next) == 0
  {
    hide ReadPhysical;
    FirstOfTwo(sum, BAD_RECORD_CODE);
    SecondOfTwo(sum, BAD_RECORD_CODE);
  }

  // ---------- The reader as it runs ----------

  class Reader {
    const file: seq<byte>
    const sum: Checksum
    const checksum: bool
    var filePos: nat
    var buffer: seq<byte>
    var eof: bool
    var reports: nat

    ghost function St(): State reads this { State(filePos, buffer, eof, reports) }

    constructor (f: seq<byte>, s: Checksum, c: bool)
      ensures file == f && sum == s && checksum == c && St() == State(0, [], false, 0)
    {
      file, sum, checksum := f, s, c;
      filePos, buffer, eof, reports := 0, [], false, 0;
    }

    /** The refilling part of `ReadPhysicalRecord`: reads blocks until a header is there, or gives up. */
    method FillBuffer() returns (ended: bool)
      requires filePos <= |file|
      modifies this
      ensures filePos <= |file|
      ensures ended ==> (Eof, St()) == ReadPhysical(file, sum, checksum, old(St()))
      ensures !ended ==> |buffer| >= HEADER_SIZE && ParsePhysical(sum, checksum, St()) == ReadPhysical(file, sum, checksum, old(St()))
    {
      hide ParsePhysical;
      while |buffer| < HEADER_SIZE
        invariant filePos <= |file|
        invariant ReadPhysical(file, sum, checksum, St()) == ReadPhysical(file, sum, checksum, old(St()))
        decreases if |buffer| >= HEADER_SIZE then 0 else if eof then 1 else 2
      {
        if eof {
          buffer := [];
          return true;
        }
        ghost var st := St();
        var end := if filePos + BLOCK_SIZE <= |file| then filePos + BLOCK_SIZE else |file|;
        buffer := file[filePos..end];
        eof := |buffer| < BLOCK_SIZE;
        filePos := end;
        assert St() == Refill(file, st);
      }
      ended := false;
    }

    method ReadPhysicalRecord() returns (r: Physical)
      requires filePos <= |file|
      modifies this
      ensures (r, St()) == ReadPhysical(file, sum, checksum, old(St())) && filePos <= |file|
    {
      hide ReadPhysical, FromLittleEndian;
      var ended := FillBuffer();
      if ended { return Eof; }
      var n := buffer[4] as nat + 256 * buffer[5] as nat;
      var kind := buffer[6];
      if HEADER_SIZE + n > |buffer| {
        buffer := [];
        if !eof {
          reports := reports + 1;
          return BadRecord;
        }
        return Eof;
      }
      if kind == 0 && n == 0 {
        buffer := [];
        return BadRecord;
      }
      if checksum && sum.Value(buffer[6..HEADER_SIZE + n]) != sum.unmask(FromLittleEndian(buffer[..4])) {
        buffer := [];
        reports := reports + 1;
        return BadRecord;
      }
      r := Record(kind, buffer[HEADER_SIZE..HEADER_SIZE + n]);
      buffer := buffer[HEADER_SIZE + n..];
    }

    method ReadNext() returns (r: Option<seq<byte>>)
      requires filePos <= |file|
      modifies this
      ensures (r, St()) == ReadRecord(file, sum, checksum, old(St()), [], false) && filePos <= |file|
    {
      hide ReadPhysical;
      var scratch: seq<byte> := [];
      var inside := false;
      while true
        invariant filePos <= |file|
        invariant ReadRecord(file, sum, checksum, St(), scratch, inside) == ReadRecord(file, sum, checksum, old(St()), [], false)
        decreases Unread(file, St())
      {
        var p := ReadPhysicalRecord();
        match Seen(p) {
          case Eof => return None;
          case BadRecord =>
            if inside {
              reports := reports + 1;
              inside, scratch := false, [];
            }
          case Record(kind, fragment) =>
            if kind == FULL {
              if inside && scratch != [] { reports := reports + 1; }
              return Some(fragment);
            } else if kind == FIRST {
              if inside && scratch != [] { reports := reports + 1; }
              scratch, inside := fragment, true;
            } else if kind == MIDDLE {
              if !inside { reports := reports + 1; } else { scratch := scratch + fragment; }
            } else if kind == LAST {
              if !inside { reports := reports + 1; } else { return Some(scratch + fragment); }
            } else {
              reports := reports + 1;
              inside, scratch := false, [];
            }
        }
      }
    }
  }

  /**
   * Reads any file to the end.  The last call stops with every byte read, or at a physical
   * record of type 5.
   */
  method ReadFile(file: seq<byte>, sum: Checksum, checksum: bool) returns (records: seq<seq<byte>>, ghost last: Physical, ghost st: State)
    ensures records == ReadAll(file, sum, checksum, FRESH)
    ensures AtEnd(file, st) && Ends(last) && (Unread(file, st) == 0 || (last.Record? && last.kind == EOF_CODE))
  {
    hide ReadRecord, Physicals, ReadPhysical;
    var reader := new Reader(file, sum, checksum);
    records := [];
    assert [] + ReadAll(file, sum, checksum, FRESH) == ReadAll(file, sum, checksum, FRESH);
    while true
      invariant reader.file == file && reader.sum == sum && reader.checksum == checksum && fresh(reader) && AtEnd(file, reader.St())
      invariant records + ReadAll(file, sum, checksum, reader.St()) == ReadAll(file, sum, checksum, FRESH)
      decreases Unread(file, reader.St())
    {
      ghost var before := reader.St();
      ReadEndsExact(file, sum, checksum, before, [], false);
      last := Last(Physicals(file, sum, checksum, before, [], false));
      var r := reader.ReadNext();
      st := reader.St();
      if r.None? {
        assert records + [] == records;
        return;
      }
      assert records + ([r.value] + ReadAll(file, sum, checksum, st)) == records + [r.value] + ReadAll(file, sum, checksum, st);
      records := records + [r.value];
    }
  }

  // ---------- Reading what was written ----------

  /** What is left of the file is a prefix of the layout of `cs`, whose first physical record starts at
      or after block offset `offset`; while reads are full the buffer ends with the block. */
  ghost predicate Synced(file: seq<byte>, sum: Checksum, st: State, offset: nat, cs: seq<Chunk>) {
    && |st.buffer| <= st.filePos <= |file|
    && st.buffer == file[st.filePos - |st.buffer|..st.filePos]
    && (if st.eof then st.filePos == |file| && offset + |st.buffer| <= BLOCK_SIZE else offset + |st.buffer| == BLOCK_SIZE)
    && Fits(offset, cs)
    && file[st.filePos - |st.buffer|..] <= Layout(offset, cs, sum)
  }

  /** A block that is too full for a header is left at once by writer and reader. */
  lemma NewBlock(offset: nat, cs: seq<Chunk>, sum: Checksum)
    requires NeedsNewBlock(offset) && offset <= BLOCK_SIZE
    ensures Fits(offset, cs) <==> Fits(0, cs)
    ensures |Trailer(offset)| == BLOCK_SIZE - offset
    ensures Layout(offset, cs, sum) == (if cs == [] then [] else Trailer(offset) + Layout(0, cs, sum))
    ensures cs != [] ==> NextOffset(offset, cs[0]) == NextOffset(0, cs[0])
  {
    hide Emit;
    if cs != [] {
      var a, b := Emit(cs[0], sum), Layout(NextOffset(0, cs[0]), cs[1..], sum);
      assert Trailer(0) == [];
      assert Trailer(offset) + a + b == Trailer(offset) + ([] + a + b);
    }
  }

  lemma RefillSynced(file: seq<byte>, sum: Checksum, st: State, offset: nat, cs: seq<Chunk>)
    requires Synced(file, sum, st, offset, cs) && |st.buffer| < HEADER_SIZE && !st.eof
    ensures Synced(file, sum, Refill(file, st), 0, cs)
    ensures |Trailer(offset)| == |st.buffer|
    ensures Unread(file, Refill(file, st)) == Unread(file, st) - |st.buffer|
    ensures cs != [] ==> NextOffset(offset, cs[0]) == NextOffset(0, cs[0])
    ensures Refill(file, st).eof || |Refill(file, st).buffer| == BLOCK_SIZE
  {
    hide Layout, Fits, Trailer, NextOffset;
    NewBlock(offset, cs, sum);
    var next := Refill(file, st);
    var from := st.filePos - |st.buffer|;
    assert next.filePos - |next.buffer| == st.filePos;
    assert file[st.filePos..] == file[from..][|st.buffer|..];
    if cs != [] { DropPrefix(file[from..], Trailer(offset), Layout(0, cs, sum)); } else { LayoutNone(0, cs, sum); }
  }

  lemma LayoutNone(offset: nat, cs: seq<Chunk>, sum: Checksum)
    requires cs == []
    ensures Layout(offset, cs, sum) == [] && Fits(offset, cs)
  {}

  lemma DropPrefix(a: seq<byte>, t: seq<byte>, l: seq<byte>)
    requires a <= t + l && |t| <= |a|
    ensures a[|t|..] <= l
  {
    assert (t + l)[|t|..] == l;
    assert a[|t|..] == (t + l)[..|a|][|t|..] == (t + l)[|t|..|a|];
  }

  /** The header of a physical record reads back: length, type, and a checksum that matches. */
  lemma HeaderReads(c: Chunk, sum: Checksum, b: seq<byte>)
    requires |c.payload| < 0x1_0000 && sum.Good() && |b| >= HEADER_SIZE
    requires b <= Emit(c, sum) || Emit(c, sum) <= b
    ensures |Emit(c, sum)| == HEADER_SIZE + |c.payload|
    ensures LengthOf(b) == |c.payload| && b[6] == c.kind
    ensures |b| >= |Emit(c, sum)| ==>
              && b[HEADER_SIZE..HEADER_SIZE + |c.payload|] == c.payload
              && sum.Value(b[6..HEADER_SIZE + |c.payload|]) == sum.unmask(FromLittleEndian(b[..4]))
  {
    var crc := sum.Extend(sum.Value([c.kind]), c.payload);
    var head := LittleEndian(sum.mask(crc), 4);
    var e := Emit(c, sum);
    assert e[4] == (|c.payload| % 256) as byte && e[5] == (|c.payload| / 256 % 256) as byte && e[6] == c.kind;
    assert b[4] == e[4] && b[5] == e[5] && b[6] == e[6];
    if |b| >= |e| {
      CrcReads(c, sum);
      assert b[..|e|] == e;
      assert b[..4] == e[..4] == head;
      assert b[6..|e|] == e[6..] == [c.kind] + c.payload;
      assert b[HEADER_SIZE..|e|] == e[HEADER_SIZE..] == c.payload;
    }
  }

  lemma CrcReads(c: Chunk, sum: Checksum)
    requires sum.Good()
    ensures var crc := sum.Extend(sum.Value([c.kind]), c.payload);
            && sum.unmask(FromLittleEndian(LittleEndian(sum.mask(crc), 4))) == crc
            && sum.Value([c.kind] + c.payload) == crc
  {
    var crc := sum.Extend(sum.Value([c.kind]), c.payload);
    assert crc < TWO_32;
    assert sum.mask(crc) < TWO_32 && sum.unmask(sum.mask(crc)) == crc;
    assert Pow256(2) == 0x1_0000;
    assert Pow256(4) == TWO_32;
    FromLittleEndianInverts(sum.mask(crc), 4);
    sum.ExtendSplit(0, c.kind, c.payload);
  }

  /** The room that the next physical record takes, trailer included. */
  ghost function Room(offset: nat, cs: seq<Chunk>): nat
    requires cs != []
  {
    |Trailer(offset)| + HEADER_SIZE + |cs[0].payload|
  }

  lemma LayoutHead(offset: nat, cs: seq<Chunk>, sum: Checksum)
    requires cs != [] && !NeedsNewBlock(offset)
    ensures Layout(offset, cs, sum) == Emit(cs[0], sum) + Layout(NextOffset(offset, cs[0]), cs[1..], sum)
    ensures NextOffset(offset, cs[0]) == offset + HEADER_SIZE + |cs[0].payload|
    ensures Trailer(offset) == []
  {
    hide Emit;
    assert [] + Emit(cs[0], sum) == Emit(cs[0], sum);
  }

  lemma PrefixAgree(rest: seq<byte>, n: nat, e: seq<byte>, l: seq<byte>)
    requires rest <= e + l && n <= |rest|
    ensures rest[..n] <= e || e <= rest[..n]
  {
    assert rest == (e + l)[..|rest|];
    if n <= |e| {
      assert rest[..n] == (e + l)[..n] == e[..n];
    } else {
      assert rest[..n][..|e|] == (e + l)[..|e|] == e;
    }
  }

  /** With a header in the buffer: the record is returned when it is all there; otherwise the file ends
      inside it, and that is no corruption. */
  lemma ParseSynced(file: seq<byte>, sum: Checksum, checksum: bool, st: State, offset: nat, cs: seq<Chunk>)
    requires sum.Good() && Synced(file, sum, st, offset, cs) && |st.buffer| >= HEADER_SIZE
    ensures cs != [] && Trailer(offset) == []
    ensures var (r, next) := ParsePhysical(sum, checksum, st);
            && next.reports == st.reports && next.filePos == st.filePos
            && (if Unread(file, st) >= Room(offset, cs)
                then r == Record(cs[0].kind, cs[0].payload) && Synced(file, sum, next, NextOffset(offset, cs[0]), cs[1..]) && Unread(file, next) == Unread(file, st) - Room(offset, cs)
                else r == Eof && next == Drop(st) && st.eof)
  {
    hide Layout, Emit, FromLittleEndian;
    var from := st.filePos - |st.buffer|;
    var rest := file[from..];
    if cs == [] { LayoutNone(offset, cs, sum); }
    assert rest[..|st.buffer|] == st.buffer;
    LayoutHead(offset, cs, sum);
    var c := cs[0];
    var l := Layout(NextOffset(offset, c), cs[1..], sum);
    PrefixAgree(rest, |st.buffer|, Emit(c, sum), l);
    HeaderReads(c, sum, st.buffer);
    if Unread(file, st) >= Room(offset, cs) {
      RecordConsumed(file, sum, st, offset, cs);
    }
  }

  lemma RecordConsumed(file: seq<byte>, sum: Checksum, st: State, offset: nat, cs: seq<Chunk>)
    requires Synced(file, sum, st, offset, cs) && cs != [] && !NeedsNewBlock(offset)
    requires Unread(file, st) >= HEADER_SIZE + |cs[0].payload|
    requires |Emit(cs[0], sum)| == HEADER_SIZE + |cs[0].payload|
    ensures |st.buffer| >= HEADER_SIZE + |cs[0].payload|
    ensures Synced(file, sum, st.(buffer := st.buffer[HEADER_SIZE + |cs[0].payload|..]), NextOffset(offset, cs[0]), cs[1..])
  {
    LayoutHead(offset, cs, sum);
    var n := HEADER_SIZE + |cs[0].payload|;
    var from := st.filePos - |st.buffer|;
    assert |st.buffer| >= n;
    hide Layout, Emit;
    DropPrefix(file[from..], Emit(cs[0], sum), Layout(NextOffset(offset, cs[0]), cs[1..], sum));
    assert file[from..][n..] == file[from + n..];
    assert st.buffer[n..] == file[from + n..st.filePos];
  }

  /** One physical read. */
  lemma PhysicalSynced(file: seq<byte>, sum: Checksum, checksum: bool, st: State, offset: nat, cs: seq<Chunk>)
    requires sum.Good() && Synced(file, sum, st, offset, cs)
    ensures var (r, next) := ReadPhysical(file, sum, checksum, st);
            && next.reports == st.reports
            && (if cs != [] && Unread(file, st) >= Room(offset, cs)
                then r == Record(cs[0].kind, cs[0].payload) && Synced(file, sum, next, NextOffset(offset, cs[0]), cs[1..]) && Unread(file, next) == Unread(file, st) - Room(offset, cs)
                else r == Eof && Synced(file, sum, next, 0, []))
    decreases if |st.buffer| >= HEADER_SIZE then 0 else if st.eof then 1 else 2
  {
    if |st.buffer| >= HEADER_SIZE {
      ParseSynced(file, sum, checksum, st, offset, cs);
      if Unread(file, st) < Room(offset, cs) { EndSynced(file, sum, Drop(st)); }
    } else if st.eof {
      EndSynced(file, sum, Drop(st));
      hide Synced, Layout, Fits;
    } else {
      RefillSynced(file, sum, st, offset, cs);
      PhysicalSynced(file, sum, checksum, Refill(file, st), 0, cs);
      hide Layout, Fits;
    }
  }

  lemma EndSynced(file: seq<byte>, sum: Checksum, st: State)
    requires st.eof && st.buffer == [] && st.filePos == |file|
    ensures Synced(file, sum, st, 0, [])
  {
    LayoutNone(0, [], sum);
    assert file[|file|..] == [];
  }

  // ---------- Whole records ----------

  lemma FragmentRoom(offset: nat, left: seq<byte>, begin: bool, sum: Checksum)
    ensures var c := Fragment(offset, left, begin);
            var fs := Fragments(offset, left, begin);
            && fs != [] && fs[0] == c
            && |Layout(offset, fs, sum)| == Room(offset, fs) +
                 (if |c.payload| == |left| then 0 else |Layout(NextOffset(offset, c), Fragments(NextOffset(offset, c), left[|c.payload|..], false), sum)|)
  {
    FragmentStep(offset, left, begin, sum);
    var c := Fragment(offset, left, begin);
    assert |Emit(c, sum)| == HEADER_SIZE + |c.payload|;
    hide Emit, Layout, Trailer;
  }

  /** A physical record of the kind that the writer gives a fragment is either the last piece, and the
      record is returned, or a piece to collect. */
  lemma PieceRead(file: seq<byte>, sum: Checksum, checksum: bool, st: State, scratch: seq<byte>, begin: bool, end: bool, payload: seq<byte>, next: State)
    requires st.filePos <= |file| && next.filePos <= |file|
    requires ReadPhysical(file, sum, checksum, st) == (Record(KindOf(begin, end), payload), next)
    ensures var whole := (if begin then [] else scratch) + payload;
            ReadRecord(file, sum, checksum, st, scratch, !begin) ==
              if end then (Some(whole), next) else ReadRecord(file, sum, checksum, next, whole, true)
  {
    hide ReadPhysical;
    assert [] + payload == payload;
  }

  ghost predicate RecordRead(file: seq<byte>, sum: Checksum, checksum: bool, st: State, offset: nat, left: seq<byte>, begin: bool, more: seq<Chunk>, scratch: seq<byte>)
    requires st.filePos <= |file|
  {
    var fs := Fragments(offset, left, begin);
    var (r, next) := ReadRecord(file, sum, checksum, st, scratch, !begin);
    && next.reports == st.reports
    && (if Unread(file, st) >= |Layout(offset, fs, sum)|
        then r == Some((if begin then [] else scratch) + left) && Synced(file, sum, next, EndOffset(offset, fs), more) && Unread(file, next) == Unread(file, st) - |Layout(offset, fs, sum)|
        else r == None && Synced(file, sum, next, 0, []))
  }

  /** Reading on from inside or before a record: its rest is put together when all of it is in the
      file; otherwise the read ends, and nothing is reported either way. */
  lemma {:induction false} RecordSynced(file: seq<byte>, sum: Checksum, checksum: bool, st: State, offset: nat, left: seq<byte>, begin: bool, more: seq<Chunk>, scratch: seq<byte>)
    requires sum.Good() && Synced(file, sum, st, offset, Fragments(offset, left, begin) + more)
    ensures RecordRead(file, sum, checksum, st, offset, left, begin, more, scratch)
    decreases |left|, Available(offset) == 0, 1
  {
    var c := Fragment(offset, left, begin);
    var fs := Fragments(offset, left, begin);
    FragmentRoom(offset, left, begin, sum);
    PhysicalSynced(file, sum, checksum, st, offset, fs + more);
    hide Synced, Layout, Trailer, ReadPhysical, EndOffset, Fragments, Fragment;
    assert (fs + more)[0] == c && (fs + more)[1..] == fs[1..] + more;
    if Unread(file, st) >= Room(offset, fs) {
      var next := ReadPhysical(file, sum, checksum, st).1;
      RecordContinued(file, sum, checksum, st, offset, left, begin, more, scratch, next);
    }
  }

  /** The first fragment has been read, and `next` is where the reader stands. */
  ghost predicate FragmentRead(file: seq<byte>, sum: Checksum, checksum: bool, st: State, offset: nat, left: seq<byte>, begin: bool, more: seq<Chunk>, next: State)
    requires st.filePos <= |file|
  {
    var c := Fragment(offset, left, begin);
    var fs := Fragments(offset, left, begin);
    && next.filePos <= |file| && fs != []
    && ReadPhysical(file, sum, checksum, st) == (Record(c.kind, c.payload), next)
    && next.reports == st.reports
    && Synced(file, sum, next, NextOffset(offset, c), fs[1..] + more)
    && Unread(file, st) >= Room(offset, fs)
    && Unread(file, next) == Unread(file, st) - Room(offset, fs)
  }

  lemma LastFragment(file: seq<byte>, sum: Checksum, checksum: bool, st: State, offset: nat, left: seq<byte>, begin: bool, more: seq<Chunk>, scratch: seq<byte>, next: State)
    requires st.filePos <= |file| && FragmentRead(file, sum, checksum, st, offset, left, begin, more, next)
    requires |Fragment(offset, left, begin).payload| == |left|
    ensures RecordRead(file, sum, checksum, st, offset, left, begin, more, scratch)
  {
    var c := Fragment(offset, left, begin);
    FragmentStep(offset, left, begin, sum);
    FragmentRoom(offset, left, begin, sum);
    assert c.payload == left;
    PieceRead(file, sum, checksum, st, scratch, begin, true, c.payload, next);
    assert Fragments(offset, left, begin)[1..] + more == more;
    hide Synced, Layout, Trailer, ReadPhysical, EndOffset, ReadRecord, Room, Fragments;
  }

  /** After a fragment that is not the last, the record goes on from `next`. */
  lemma FragmentGoesOn(file: seq<byte>, sum: Checksum, checksum: bool, st: State, offset: nat, left: seq<byte>, begin: bool, more: seq<Chunk>, scratch: seq<byte>, next: State)
    requires st.filePos <= |file| && FragmentRead(file, sum, checksum, st, offset, left, begin, more, next)
    requires |Fragment(offset, left, begin).payload| != |left|
    ensures ReadRecord(file, sum, checksum, st, scratch, !begin) ==
            ReadRecord(file, sum, checksum, next, (if begin then [] else scratch) + Fragment(offset, left, begin).payload, true)
    ensures Fragment(offset, left, begin).payload <= left
  {
    hide Synced, Layout, Trailer, ReadPhysical, EndOffset, ReadRecord, Room, Fragments;
    var c := Fragment(offset, left, begin);
    PieceRead(file, sum, checksum, st, scratch, begin, false, c.payload, next);
  }

  lemma MoreFragments(file: seq<byte>, sum: Checksum, checksum: bool, st: State, offset: nat, left: seq<byte>, begin: bool, more: seq<Chunk>, scratch: seq<byte>, next: State)
    requires st.filePos <= |file| && FragmentRead(file, sum, checksum, st, offset, left, begin, more, next)
    requires var c := Fragment(offset, left, begin);
             && |c.payload| != |left|
             && RecordRead(file, sum, checksum, next, NextOffset(offset, c), left[|c.payload|..], false, more, (if begin then [] else scratch) + c.payload)
    ensures RecordRead(file, sum, checksum, st, offset, left, begin, more, scratch)
  {
    hide Synced, Layout, Trailer, ReadPhysical, EndOffset, ReadRecord, Room, Fragments, Fragment, NextOffset, Unread, KindOf;
    var c := Fragment(offset, left, begin);
    FragmentStep(offset, left, begin, sum);
    FragmentRoom(offset, left, begin, sum);
    FragmentGoesOn(file, sum, checksum, st, offset, left, begin, more, scratch, next);
    var start := if begin then [] else scratch;
    assert start + c.payload + left[|c.payload|..] == start + left by {
      assert left == c.payload + left[|c.payload|..];
    }
  }

  lemma {:induction false} RecordContinued(file: seq<byte>, sum: Checksum, checksum: bool, st: State, offset: nat, left: seq<byte>, begin: bool, more: seq<Chunk>, scratch: seq<byte>, next: State)
    requires sum.Good() && st.filePos <= |file| && FragmentRead(file, sum, checksum, st, offset, left, begin, more, next)
    ensures RecordRead(file, sum, checksum, st, offset, left, begin, more, scratch)
    decreases |left|, Available(offset) == 0, 0
  {
    hide Synced, Layout, Trailer, ReadPhysical, EndOffset, ReadRecord, Room, RecordRead;
    var c := Fragment(offset, left, begin);
    var fs := Fragments(offset, left, begin);
    if |c.payload| == |left| {
      LastFragment(file, sum, checksum, st, offset, left, begin, more, scratch, next);
    } else {
      assert fs[1..] == Fragments(NextOffset(offset, c), left[|c.payload|..], false);
      RecordSynced(file, sum, checksum, next, NextOffset(offset, c), left[|c.payload|..], false, more, (if begin then [] else scratch) + c.payload);
      MoreFragments(file, sum, checksum, st, offset, left, begin, more, scratch, next);
    }
  }

  /** A full block and a new one are the same place to write. */
  lemma AtBlockEnd(rs: seq<seq<byte>>, r: seq<byte>, sum: Checksum)
    ensures Fragments(BLOCK_SIZE, r, true) == Fragments(0, r, true)
    ensures EndOffset(BLOCK_SIZE, Fragments(0, r, true)) == EndOffset(0, Fragments(0, r, true))
    ensures Layout(BLOCK_SIZE, Fragments(0, r, true), sum) == Layout(0, Fragments(0, r, true), sum)
  {
    var fs := Fragments(0, r, true);
    NewBlock(BLOCK_SIZE, fs, sum);
    hide Layout;
    assert Fragment(BLOCK_SIZE, r, true) == Fragment(0, r, true);
    assert Trailer(BLOCK_SIZE) == [];
    assert fs != [];
    assert [] + Layout(0, fs, sum) == Layout(0, fs, sum);
  }

  lemma StartSynced(file: seq<byte>, sum: Checksum, rs: seq<seq<byte>>)
    requires file <= LogOf(rs, sum)
    ensures Synced(file, sum, State(0, [], false, 0), BLOCK_SIZE, ChunksOf(BLOCK_SIZE, rs))
  {
    ChunksFit(0, rs);
    ChunksFit(BLOCK_SIZE, rs);
    ChunksAtBlockEnd(rs, sum);
    NewBlock(BLOCK_SIZE, ChunksOf(0, rs), sum);
    hide Layout, ChunksOf, Fits;
    var cs := ChunksOf(0, rs);
    assert Trailer(BLOCK_SIZE) == [];
    if cs == [] { LayoutNone(0, cs, sum); } else { assert [] + Layout(0, cs, sum) == Layout(0, cs, sum); }
    assert file[0..] == file;
  }

  lemma ChunksAtBlockEnd(rs: seq<seq<byte>>, sum: Checksum)
    ensures ChunksOf(BLOCK_SIZE, rs) == ChunksOf(0, rs)
  {
    if rs != [] { AtBlockEnd(rs, rs[0], sum); }
  }

  /** What stands in the file up to record `i`, when the reader is about to read it. */
  ghost predicate ReadUpTo(file: seq<byte>, sum: Checksum, st: State, rs: seq<seq<byte>>, i: nat, offset: nat) {
    && i <= |rs| && st.reports == 0
    && (if i == 0 then offset == BLOCK_SIZE else offset == EndOffset(0, ChunksOf(0, rs[..i])))
    && Synced(file, sum, st, offset, ChunksOf(offset, rs[i..]))
    && |LogOf(rs[..i], sum)| + Unread(file, st) == |file|
  }

  /** One record more, or the end. */
  lemma ReadOneMore(file: seq<byte>, sum: Checksum, checksum: bool, st: State, rs: seq<seq<byte>>, i: nat, offset: nat)
    requires sum.Good() && ReadUpTo(file, sum, st, rs, i, offset) && i < |rs|
    ensures var (r, next) := ReadRecord(file, sum, checksum, st, [], false);
            && next.reports == 0
            && (if |LogOf(rs[..i + 1], sum)| <= |file|
                then r == Some(rs[i]) && ReadUpTo(file, sum, next, rs, i + 1, EndOffset(0, ChunksOf(0, rs[..i + 1])))
                else r == None)
  {
    var fs := Fragments(offset, rs[i], true);
    assert rs[..i + 1] == rs[..i] + [rs[i]] && rs[i..][1..] == rs[i + 1..];
    LogSnoc(rs[..i], rs[i], sum);
    if i == 0 {
      AtBlockEnd(rs, rs[0], sum);
      assert rs[..0] == [];
    }
    var more := ChunksOf(EndOffset(offset, fs), rs[i + 1..]);
    assert ChunksOf(offset, rs[i..]) == fs + more;
    hide Synced, Layout, ChunksOf, EndOffset, Fragments, LogOf, ReadRecord;
    RecordSynced(file, sum, checksum, st, offset, rs[i], true, more, []);
    assert [] + rs[i] == rs[i];
  }

  lemma NoMoreRecords(file: seq<byte>, sum: Checksum, checksum: bool, st: State, rs: seq<seq<byte>>, offset: nat)
    requires sum.Good() && ReadUpTo(file, sum, st, rs, |rs|, offset)
    ensures var (r, next) := ReadRecord(file, sum, checksum, st, [], false); r == None && next.reports == 0
  {
    assert rs[|rs|..] == [];
    assert ChunksOf(offset, rs[|rs|..]) == [];
    PhysicalSynced(file, sum, checksum, st, offset, []);
  }

  /** Crash safety: reading any prefix of a log gives exactly the records that lie wholly inside it, in
      order, and reports no corruption. */
  method RecoverLog(file: seq<byte>, sum: Checksum, checksum: bool, ghost rs: seq<seq<byte>>)
    returns (records: seq<seq<byte>>, reports: nat)
    requires sum.Good() && file <= LogOf(rs, sum)
    ensures records <= rs && reports == 0
    ensures |LogOf(records, sum)| <= |file|
    ensures |records| < |rs| ==> |LogOf(rs[..|records| + 1], sum)| > |file|
  {
    hide Synced, ChunksOf, LogOf, ReadRecord;
    var reader := new Reader(file, sum, checksum);
    StartSynced(file, sum, rs);
    StartEmpty(rs, sum);
    ghost var offset := BLOCK_SIZE;
    records := [];
    while true
      invariant reader.file == file && reader.sum == sum && reader.checksum == checksum && fresh(reader)
      invariant reader.filePos <= |file|
      invariant |records| <= |rs| && records == rs[..|records|] && ReadUpTo(file, sum, reader.St(), rs, |records|, offset)
      decreases |rs| - |records|
    {
      ghost var i := |records|;
      if i < |rs| { ReadOneMore(file, sum, checksum, reader.St(), rs, i, offset); } else { NoMoreRecords(file, sum, checksum, reader.St(), rs, offset); }
      var r := reader.ReadNext();
      if r.None? { break; }
      records := records + [r.value];
      offset := EndOffset(0, ChunksOf(0, rs[..i + 1]));
    }
    reports := reader.reports;
  }

  lemma StartEmpty(rs: seq<seq<byte>>, sum: Checksum)
    ensures rs[..0] == [] && rs[0..] == rs && LogOf([], sum) == []
  {}

  /** The log of all records, read to the end, gives all of them back. */
  lemma LogGrows(rs: seq<seq<byte>>, n: nat, sum: Checksum)
    requires n <= |rs|
    ensures |LogOf(rs[..n], sum)| <= |LogOf(rs, sum)|
  {
    assert rs == rs[..n] + rs[n..];
    hide LogOf;
    LogPrefix(rs[..n], rs[n..], sum);
  }

  /** Of a log cut at any byte, the records read are the first ones, as many as lie wholly inside. */
  lemma {:induction false} AllRead(file: seq<byte>, sum: Checksum, checksum: bool, st: State, rs: seq<seq<byte>>, i: nat, offset: nat) returns (n: nat)
    requires sum.Good() && st.filePos <= |file| && ReadUpTo(file, sum, st, rs, i, offset)
    ensures i <= n <= |rs| && ReadAll(file, sum, checksum, st) == rs[i..n] && (n < |rs| ==> |LogOf(rs[..n + 1], sum)| > |file|)
    decreases |rs| - i
  {
    hide Synced, ChunksOf, LogOf, ReadRecord;
    n := i;
    if i < |rs| {
      ReadOneMore(file, sum, checksum, st, rs, i, offset);
      var (r, next) := ReadRecord(file, sum, checksum, st, [], false);
      if r.Some? {
        n := AllRead(file, sum, checksum, next, rs, i + 1, EndOffset(0, ChunksOf(0, rs[..i + 1])));
        assert rs[i..n] == [rs[i]] + rs[i + 1..n];
      }
    } else {
      NoMoreRecords(file, sum, checksum, st, rs, offset);
    }
  }

  /** A record is read back from every cut of the log that lies behind it, in its place. */
  lemma RecordSurvives(file: seq<byte>, sum: Checksum, checksum: bool, rs: seq<seq<byte>>, j: nat)
    requires sum.Good() && file <= LogOf(rs, sum) && j < |rs| && |LogOf(rs[..j + 1], sum)| <= |file|
    ensures j < |ReadAll(file, sum, checksum, FRESH)| && ReadAll(file, sum, checksum, FRESH)[j] == rs[j]
    ensures ReadAll(file, sum, checksum, FRESH) <= rs
  {
    hide Synced, ChunksOf, LogOf, ReadAll;
    StartSynced(file, sum, rs);
    StartEmpty(rs, sum);
    var n := AllRead(file, sum, checksum, FRESH, rs, 0, BLOCK_SIZE);
    if n <= j {
      assert rs[..j + 1][..n + 1] == rs[..n + 1];
      LogGrows(rs[..j + 1], n + 1, sum);
    }
    assert rs[0..n] == rs[..n];
  }

  /** Writing records and reading the file: everything comes back. */
  method WriteThenRead(rs: seq<seq<byte>>, sum: Checksum, checksum: bool) returns (records: seq<seq<byte>>)
    requires sum.Good()
    ensures records == rs
  {
    hide LogOf, ChunksOf, EndOffset;
    var w := new LogWriter(sum);
    for i := 0 to |rs|
      invariant w.Valid() && w.written == rs[..i] && w.sum == sum && fresh(w)
    {
      w.AddRecord(rs[i]);
    }
    assert rs[..|rs|] == rs;
    var reports: nat;
    records, reports := RecoverLog(w.dest, sum, checksum, rs);
    if |records| < |rs| { LogGrows(rs, |records| + 1, sum); }
  }
}
