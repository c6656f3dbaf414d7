/**
 * What the log reader returns from any file, damaged or not: only records that stand in it
 * whole and, with checksums, under their own checksums.
 */
module LogIntegrity {
  import opened Bytes
  import opened LogFormat
  import opened LogReader

  /** A whole physical record stands at `q` in the file, and its stored checksum is that of its type and payload. */
  ghost predicate IntactAt(file: seq<byte>, sum: Checksum, checksum: bool, q: nat, kind: byte, payload: seq<byte>) {
    && q + 7 + |payload| <= |file|
    && |payload| == file[q + 4] as nat + 256 * file[q + 5] as nat && kind == file[q + 6]
    && payload == file[q + 7..q + 7 + |payload|]
    && (checksum ==> sum.unmask(FromLittleEndian(file[q..q + 4])) == sum.Value([kind] + payload))
  }

  /** The buffer is the last part of what has been read of the file. */
  ghost predicate Buffered(file: seq<byte>, st: State) {
    |st.buffer| <= st.filePos <= |file| && st.buffer == file[st.filePos - |st.buffer|..st.filePos]
  }

  /** What becomes of a header and what follows it, case by case. */
  lemma ParseExact(sum: Checksum, checksum: bool, st: State)
    requires |st.buffer| >= 7
    ensures var b := st.buffer;
            var n := b[4] as nat + 256 * b[5] as nat;
            var (p, next) := ParsePhysical(sum, checksum, st);
            if 7 + n > |b| then p == (if st.eof then Eof else BadRecord) && next == st.(buffer := [], reports := if st.eof then st.reports else st.reports + 1)
            else if b[6] == 0 && n == 0 then p == BadRecord && next == st.(buffer := [])
            else if checksum && sum.unmask(FromLittleEndian(b[..4])) != sum.Value([b[6]] + b[7..7 + n]) then
              p == BadRecord && next == st.(buffer := [], reports := st.reports + 1)
            else p == Record(b[6], b[7..7 + n]) && next == st.(buffer := b[7 + n..])
  {
    hide FromLittleEndian;
    var b := st.buffer;
    var n := b[4] as nat + 256 * b[5] as nat;
    if 7 + n <= |b| {
      assert b[6..7 + n] == [b[6]] + b[7..7 + n];
    }
  }

  lemma ParsedIntact(file: seq<byte>, sum: Checksum, checksum: bool, st: State)
    requires Buffered(file, st) && |st.buffer| >= 7
    ensures var (p, next) := ParsePhysical(sum, checksum, st);
            && Buffered(file, next)
            && (p.Record? ==> IntactAt(file, sum, checksum, st.filePos - |st.buffer|, p.kind, p.payload))
            && (p.Record? ==> next.filePos - |next.buffer| == st.filePos - |st.buffer| + 7 + |p.payload|)
  {
    hide FromLittleEndian, ParsePhysical;
    ParseExact(sum, checksum, st);
    var b, q := st.buffer, st.filePos - |st.buffer|;
    var n := b[4] as nat + 256 * b[5] as nat;
    SliceIs(file, q, st.filePos, 0, 4);
    if 7 + n <= |b| {
      SliceIs(file, q, st.filePos, 7, 7 + n);
      SliceIs(file, q, st.filePos, 7 + n, |b|);
      assert b[7 + n..|b|] == b[7 + n..] && b[0..4] == b[..4];
    }
  }

  lemma SliceIs(file: seq<byte>, q: nat, e: nat, i: nat, j: nat)
    requires q <= e <= |file| && i <= j <= e - q
    ensures file[q..e][i..j] == file[q + i..q + j]
    ensures forall k :: 0 <= k < e - q ==> file[q..e][k] == file[q + k]
  {
    var a, b := file[q..e][i..j], file[q + i..q + j];
    forall k | 0 <= k < j - i ensures a[k] == b[k] {
      assert a[k] == file[q..e][i + k] == file[q + (i + k)];
    }
  }

  /**
   * Whatever the file holds, a physical record that is returned stands in it whole and, with
   * checksums, under its own checksum; it lies behind where the reader was and before where
   * it is.
   */
  lemma {:induction false} PhysicalIntact(file: seq<byte>, sum: Checksum, checksum: bool, st: State) returns (q: nat)
    requires Buffered(file, st)
    ensures var (p, next) := ReadPhysical(file, sum, checksum, st);
            && Buffered(file, next)
            && (p.Record? ==>
                  && IntactAt(file, sum, checksum, q, p.kind, p.payload)
                  && st.filePos - |st.buffer| <= q && q + 7 + |p.payload| == next.filePos - |next.buffer|)
    decreases if |st.buffer| >= HEADER_SIZE then 0 else if st.eof then 1 else 2
  {
    hide ParsePhysical, IntactAt;
    q := st.filePos - |st.buffer|;
    if |st.buffer| >= HEADER_SIZE {
      ParsedIntact(file, sum, checksum, st);
    } else if !st.eof {
      q := PhysicalIntact(file, sum, checksum, Refill(file, st));
    }
  }

  /** The payloads of physical records at increasing places of the file, each intact. */
  ghost predicate Pieces(file: seq<byte>, sum: Checksum, checksum: bool, kinds: seq<byte>, qs: seq<nat>, ps: seq<seq<byte>>) {
    && |kinds| == |qs| == |ps|
    && (forall i :: 0 <= i < |qs| ==> IntactAt(file, sum, checksum, qs[i], kinds[i], ps[i]))
    && (forall i :: 0 < i < |qs| ==> qs[i - 1] + 7 + |ps[i - 1]| <= qs[i])
  }

  function Joined(ps: seq<seq<byte>>): seq<byte> {
    if ps == [] then [] else Joined(ps[..|ps| - 1]) + ps[|ps| - 1]
  }

  /** The types of the pieces of one record: 1 alone, or 2, any number of 3, and 4. */
  predicate WholeKinds(kinds: seq<byte>) {
    kinds == [1] || (|kinds| >= 2 && kinds[0] == 2 && kinds[|kinds| - 1] == 4 && forall i :: 0 < i < |kinds| - 1 ==> kinds[i] == 3)
  }

  predicate OpenKinds(kinds: seq<byte>) {
    |kinds| >= 1 && kinds[0] == 2 && forall i :: 0 < i < |kinds| ==> kinds[i] == 3
  }

  /** The fragments collected so far are intact pieces of the file before where the reader is. */
  ghost predicate Collected(file: seq<byte>, sum: Checksum, checksum: bool, st: State, scratch: seq<byte>, kinds: seq<byte>, qs: seq<nat>, ps: seq<seq<byte>>) {
    && Buffered(file, st) && Pieces(file, sum, checksum, kinds, qs, ps) && OpenKinds(kinds) && Joined(ps) == scratch
    && qs[|qs| - 1] + 7 + |ps[|ps| - 1]| <= st.filePos - |st.buffer|
  }

  lemma JoinedSnoc(ps: seq<seq<byte>>, p: seq<byte>)
    ensures Joined(ps + [p]) == Joined(ps) + p
  {
    assert (ps + [p])[..|ps|] == ps;
  }

  lemma OnePiece(file: seq<byte>, sum: Checksum, checksum: bool, kind: byte, q: nat, p: seq<byte>)
    requires IntactAt(file, sum, checksum, q, kind, p)
    ensures Pieces(file, sum, checksum, [kind], [q], [p]) && Joined([p]) == p
  {
    assert [p][..0] == [];
  }

  lemma MorePieces(file: seq<byte>, sum: Checksum, checksum: bool, kinds: seq<byte>, qs: seq<nat>, ps: seq<seq<byte>>, kind: byte, q: nat, p: seq<byte>)
    requires Pieces(file, sum, checksum, kinds, qs, ps) && IntactAt(file, sum, checksum, q, kind, p)
    requires qs != [] ==> qs[|qs| - 1] + 7 + |ps[|ps| - 1]| <= q
    ensures Pieces(file, sum, checksum, kinds + [kind], qs + [q], ps + [p]) && Joined(ps + [p]) == Joined(ps) + p
  {
    hide IntactAt;
    JoinedSnoc(ps, p);
  }

  /**
   * Whatever the file holds, a record that is returned is put together from whole physical
   * records of the file, in their order, of the types 1 or 2, 3, ..., 3, 4, each under its own
   * checksum if checksums are on.
   */
  lemma {:induction false} RecordIntact(file: seq<byte>, sum: Checksum, checksum: bool, st: State, scratch: seq<byte>, inside: bool,
                                        kinds0: seq<byte>, qs0: seq<nat>, ps0: seq<seq<byte>>)
    returns (kinds: seq<byte>, qs: seq<nat>, ps: seq<seq<byte>>)
    requires st.filePos <= |file| && Buffered(file, st) && (inside ==> Collected(file, sum, checksum, st, scratch, kinds0, qs0, ps0))
    ensures var (r, next) := ReadRecord(file, sum, checksum, st, scratch, inside);
            && Buffered(file, next)
            && (r.Some? ==> Pieces(file, sum, checksum, kinds, qs, ps) && WholeKinds(kinds) && Joined(ps) == r.value)
    decreases Unread(file, st)
  {
    hide ReadPhysical, Handle, Collected, Pieces, Joined, WholeKinds, Buffered;
    kinds, qs, ps := StepIntact(file, sum, checksum, st, scratch, inside, kinds0, qs0, ps0);
    var (p, next) := ReadPhysical(file, sum, checksum, st);
    var step := Handle(p, next, scratch, inside);
    if step.GoOn? {
      kinds, qs, ps := RecordIntact(file, sum, checksum, step.st, step.scratch, step.inside, kinds, qs, ps);
    }
  }

  lemma StepIntact(file: seq<byte>, sum: Checksum, checksum: bool, st: State, scratch: seq<byte>, inside: bool,
                   kinds0: seq<byte>, qs0: seq<nat>, ps0: seq<seq<byte>>)
    returns (kinds: seq<byte>, qs: seq<nat>, ps: seq<seq<byte>>)
    requires Buffered(file, st) && (inside ==> Collected(file, sum, checksum, st, scratch, kinds0, qs0, ps0))
    ensures var (p, next) := ReadPhysical(file, sum, checksum, st);
            var step := Handle(p, next, scratch, inside);
            && step.st.filePos <= |file| && Buffered(file, step.st)
            && (step.GoOn? && step.inside ==> Collected(file, sum, checksum, step.st, step.scratch, kinds, qs, ps))
            && (step.Whole? ==> Pieces(file, sum, checksum, kinds, qs, ps) && WholeKinds(kinds) && Joined(ps) == step.record)
  {
    hide ReadPhysical, IntactAt, Pieces, Joined, OpenKinds, WholeKinds;
    KindsBegin();
    var q := PhysicalIntact(file, sum, checksum, st);
    var (p, next) := ReadPhysical(file, sum, checksum, st);
    kinds, qs, ps := kinds0, qs0, ps0;
    if p.Record? && (p.kind == FULL || p.kind == FIRST) {
      OnePiece(file, sum, checksum, p.kind, q, p.payload);
      kinds, qs, ps := [p.kind], [q], [p.payload];
    } else if p.Record? && inside && (p.kind == MIDDLE || p.kind == LAST) {
      MorePiecesOf(file, sum, checksum, st, scratch, kinds0, qs0, ps0, p.kind, q, p.payload);
      kinds, qs, ps := kinds0 + [p.kind], qs0 + [q], ps0 + [p.payload];
    }
  }

  lemma KindsBegin()
    ensures OpenKinds([2]) && WholeKinds([1])
  {}

  lemma MorePiecesOf(file: seq<byte>, sum: Checksum, checksum: bool, st: State, scratch: seq<byte>, kinds: seq<byte>, qs: seq<nat>, ps: seq<seq<byte>>,
                     kind: byte, q: nat, p: seq<byte>)
    requires Collected(file, sum, checksum, st, scratch, kinds, qs, ps) && IntactAt(file, sum, checksum, q, kind, p) && st.filePos - |st.buffer| <= q
    ensures |kinds| == |qs| == |ps| > 0 && (kind == 3 ==> OpenKinds(kinds + [kind])) && (kind == 4 ==> WholeKinds(kinds + [kind]))
    ensures Pieces(file, sum, checksum, kinds + [kind], qs + [q], ps + [p]) && Joined(ps + [p]) == scratch + p
  {
    hide IntactAt, Joined;
    MorePieces(file, sum, checksum, kinds, qs, ps, kind, q, p);
  }

  /** A damaged record: the stored checksum does not match, so it is reported and the rest of the block dropped. */
  lemma DamagedExample(sum: Checksum)
    requires sum.unmask(0) != sum.Value([1, 9])
    ensures var file := [0, 0, 0, 0, 1, 0, 1, 9];
            var (r, next) := ReadRecord(file, sum, true, FRESH, [], false);
            r == None && next.reports == 1 && next.buffer == []
  {
    var file: seq<byte> := [0, 0, 0, 0, 1, 0, 1, 9];
    var full := Refill(file, FRESH);
    assert full.buffer == file;
    ParseExact(sum, true, full);
    assert file[..4] == [0, 0, 0, 0] && file[7..8] == [9] && [file[6]] + [9] == [1, 9];
    ZeroChecksum();
    hide ParsePhysical, FromLittleEndian;
    assert ReadPhysical(file, sum, true, full) == (BadRecord, State(8, [], true, 1));
    assert ReadPhysical(file, sum, true, FRESH) == (BadRecord, State(8, [], true, 1));
    assert ReadRecord(file, sum, true, State(8, [], true, 1), [], false) == (None, State(8, [], true, 1));
  }

  lemma ZeroChecksum()
    ensures FromLittleEndian([0, 0, 0, 0]) == 0
  {
    assert [0 as byte, 0, 0, 0][1..] == [0, 0, 0] && [0 as byte, 0, 0][1..] == [0, 0] && [0 as byte, 0][1..] == [0] && [0 as byte][1..] == [];
    assert FromLittleEndian([0]) == 0 && FromLittleEndian([0, 0]) == 0 && FromLittleEndian([0, 0, 0]) == 0;
  }
}
