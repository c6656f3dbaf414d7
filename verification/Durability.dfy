/**
 * From the acknowledgement of a write to its recovery: the log files that a run of the
 * group-commit protocol leaves, what a sync makes of them, and what recovery reads from any
 * of them cut behind its synced part.
 */
module Durability {
  import opened Bytes
  import opened GroupCommit
  import opened GroupProtocol
  import opened GroupTheorems
  import opened GroupRooms
  import opened WriteBatches
  import Format = LogFormat
  import Reading = LogReader

  // ---------------------------------------------------------------------- the log files

  /** Where in the sequence of all records each log file begins. */
  ghost function Starts(base: nat, run: seq<Action>): seq<nat>
    requires Run(Opened(base), run)
    decreases |run|
  {
    if run == [] then [0] else
      RunSnoc(Opened(base), run);
      var before := run[..|run| - 1];
      Starts(base, before) + if run[|run| - 1].SwitchLog? then [|After(Opened(base), before).log|] else []
  }

  /** Record `p` is in file `f`. */
  ghost predicate InFile(starts: seq<nat>, f: nat, p: nat) {
    f < |starts| && starts[f] <= p && (f + 1 < |starts| ==> p < starts[f + 1])
  }

  /** The files follow each other, the present one is the last, and in each what is on disk is a beginning. */
  ghost predicate FilesOk(s: State, starts: seq<nat>) {
    && starts != [] && starts[0] == 0 && starts[|starts| - 1] == s.fileStart <= |s.log|
    && (forall f, g :: 0 <= f <= g < |starts| ==> starts[f] <= starts[g])
    && (forall q :: q in s.durable ==> q < |s.log|)
    && (forall f: nat, p: nat, q: nat :: InFile(starts, f, p) && InFile(starts, f, q) && p <= q && q in s.durable ==> p in s.durable)
  }

  lemma FilesSync(s: State, starts: seq<nat>, w: nat)
    requires Enabled(s, Sync(w, Ok)) && FilesOk(s, starts)
    ensures FilesOk(Do(s, Sync(w, Ok)), starts)
  {
    hide Range, Entries;
    var t := Do(s, Sync(w, Ok));
    forall f: nat, p: nat, q: nat | InFile(starts, f, p) && InFile(starts, f, q) && p <= q && q in t.durable
      ensures p in t.durable
    {
      if q !in s.durable {
        LastFile(s, starts, f, q);
      }
    }
  }

  lemma LastFile(s: State, starts: seq<nat>, f: nat, q: nat)
    requires FilesOk(s, starts) && InFile(starts, f, q) && s.fileStart <= q
    ensures starts[f] == s.fileStart
  {
  }

  lemma FilesSwitch(s: State, starts: seq<nat>, w: nat)
    requires Enabled(s, SwitchLog(w)) && FilesOk(s, starts)
    ensures FilesOk(Do(s, SwitchLog(w)), starts + [|s.log|])
  {
    var more := starts + [|s.log|];
    forall f, g | 0 <= f <= g < |more| ensures more[f] <= more[g] {
      if g == |starts| && f < g {
        assert starts[f] <= starts[|starts| - 1];
      }
    }
    forall f: nat, p: nat, q: nat | InFile(more, f, p) && InFile(more, f, q) && p <= q && q in s.durable
      ensures p in s.durable
    {
      assert f < |starts|;
      assert InFile(starts, f, p) && InFile(starts, f, q);
    }
  }

  lemma FilesOther(s: State, starts: seq<nat>, a: Action)
    requires Enabled(s, a) && !a.SwitchLog? && !(a.Sync? && a.status == Ok) && FilesOk(s, starts)
    ensures FilesOk(Do(s, a), starts)
  {
    hide Range, Entries, Popped, InFile, GroupSize, MayGroup, Ops;
  }

  lemma {:induction false} FilesRun(base: nat, run: seq<Action>)
    requires Run(Opened(base), run)
    ensures FilesOk(After(Opened(base), run), Starts(base, run))
    decreases |run|
  {
    hide Do, Enabled, FilesOk;
    if run == [] {
      FilesOpened(base);
    } else {
      var n := |run| - 1;
      RunSnoc(Opened(base), run);
      FilesRun(base, run[..n]);
      var s, starts, a := After(Opened(base), run[..n]), Starts(base, run[..n]), run[n];
      if a.SwitchLog? {
        FilesSwitch(s, starts, a.w);
      } else {
        assert starts + [] == starts;
        if a.Sync? && a.status == Ok {
          FilesSync(s, starts, a.w);
        } else {
          FilesOther(s, starts, a);
        }
      }
    }
  }

  lemma FilesOpened(base: nat)
    ensures FilesOk(Opened(base), [0])
  {
  }

  /** A record is on disk if and only if a sync succeeded while its file was the present one and it was in it. */
  lemma {:induction false} DurableExact(base: nat, run: seq<Action>, q: nat)
    requires Run(Opened(base), run)
    ensures q in After(Opened(base), run).durable <==> exists i :: 0 <= i < |run| && SyncedBy(base, run, i, q)
    decreases |run|
  {
    hide Do, Enabled;
    if run != [] {
      var n := |run| - 1;
      RunSnoc(Opened(base), run);
      DurableExact(base, run[..n], q);
      forall i | 0 <= i < n ensures SyncedBy(base, run, i, q) <==> SyncedBy(base, run[..n], i, q) {
        assert run[..n][..i] == run[..i] && run[..n][i] == run[i];
      }
      DurableStep(After(Opened(base), run[..n]), run[n], q);
      SyncedMore(base, run[..n], run, n, q);
    }
  }

  lemma SyncedMore(base: nat, before: seq<Action>, run: seq<Action>, n: nat, q: nat)
    requires |run| == n + 1 && |before| == n && forall i :: 0 <= i < n ==> (SyncedBy(base, run, i, q) <==> SyncedBy(base, before, i, q))
    ensures (exists i :: 0 <= i < |run| && SyncedBy(base, run, i, q)) <==>
            (exists i :: 0 <= i < |before| && SyncedBy(base, before, i, q)) || SyncedBy(base, run, n, q)
  {
    hide SyncedBy;
  }

  /** Action `i` is a sync that succeeded, with record `q` in the present log file. */
  ghost predicate SyncedBy(base: nat, run: seq<Action>, i: nat, q: nat) {
    && i < |run| && run[i].Sync? && run[i].status == Ok && Run(Opened(base), run[..i])
    && var s := After(Opened(base), run[..i]); s.fileStart <= q < |s.log|
  }

  lemma DurableStep(s: State, a: Action, q: nat)
    requires Enabled(s, a)
    ensures q in Do(s, a).durable <==> q in s.durable || (a.Sync? && a.status == Ok && s.fileStart <= q < |s.log|)
  {
    hide Entries, Popped, GroupSize, MayGroup, Ops;
  }

  function FileEnd(s: State, starts: seq<nat>, f: nat): nat
    requires f < |starts|
  {
    if f + 1 < |starts| then starts[f + 1] else |s.log|
  }

  /** Every record is in some file. */
  lemma {:induction false} FileOf(starts: seq<nat>, p: nat) returns (f: nat)
    requires starts != [] && starts[0] <= p
    ensures InFile(starts, f, p)
  {
    var last := |starts| - 1;
    if starts[last] <= p {
      f := last;
    } else {
      f := FileOf(starts[..last], p);
    }
  }

  // ------------------------------------------------------------------------- on disk

  function Coded(rs: seq<Record>): (ds: seq<seq<byte>>)
    ensures |ds| == |rs| && forall i :: 0 <= i < |rs| ==> ds[i] == Contents(rs[i])
  {
    seq(|rs|, i requires 0 <= i < |rs| => Contents(rs[i]))
  }

  /** The records of log file `f`. */
  ghost function FileRecords(s: State, starts: seq<nat>, f: nat): seq<Record>
    requires FilesOk(s, starts) && f < |starts|
  {
    FileBounds(s, starts, f);
    s.log[starts[f]..FileEnd(s, starts, f)]
  }

  lemma FileBounds(s: State, starts: seq<nat>, f: nat)
    requires FilesOk(s, starts) && f < |starts|
    ensures starts[f] <= FileEnd(s, starts, f) <= |s.log|
  {
    assert f + 1 < |starts| ==> starts[f] <= starts[f + 1] <= starts[|starts| - 1];
  }

  /** What a crash can leave of file `f`: a beginning of it that holds every record on disk. */
  ghost predicate Left(s: State, starts: seq<nat>, f: nat, sum: Format.Checksum, bytes: seq<byte>)
    requires FilesOk(s, starts) && f < |starts|
  {
    FileBounds(s, starts, f);
    && bytes <= Format.LogOf(Coded(FileRecords(s, starts, f)), sum)
    && forall q: nat :: q in s.durable && starts[f] <= q < FileEnd(s, starts, f) ==>
         |Format.LogOf(Coded(s.log[starts[f]..q + 1]), sum)| <= |bytes|
  }

  // ------------------------------------------------------------------------- recovery

  /** What one log record puts into the memtable; one that is too short is dropped. */
  function Inserted(d: seq<byte>): seq<Entry> {
    if |d| < BATCH_HEADER then [] else Entries(Sequence(d), Handed(d[BATCH_HEADER..]).0)
  }

  function Replay(ds: seq<seq<byte>>): seq<Entry> {
    if ds == [] then [] else Inserted(ds[0]) + Replay(ds[1..])
  }

  lemma {:induction false} ReplayHas(ds: seq<seq<byte>>, j: nat, e: Entry)
    requires j < |ds| && e in Inserted(ds[j])
    ensures e in Replay(ds)
  {
    hide Inserted;
    if j > 0 {
      ReplayHas(ds[1..], j - 1, e);
    }
  }

  lemma InsertedBatch(r: Record)
    requires Storable(r)
    ensures Inserted(Contents(r)) == Entries(r.first, r.ops)
  {
    hide Handed, Contents;
    ContentsRoundTrip(r);
  }

  /** `RecoverLogFile`: every record of the file goes into the memtable. */
  method RecoverLogFile(file: seq<byte>, sum: Format.Checksum) returns (mem: seq<Entry>)
    ensures mem == Replay(Reading.ReadAll(file, sum, true, Reading.FRESH))
  {
    hide Inserted, Reading.ReadRecord;
    var reader := new Reading.Reader(file, sum, true);
    mem := [];
    ghost var all := Replay(Reading.ReadAll(file, sum, true, Reading.FRESH));
    assert [] + all == all;
    while true
      invariant reader.file == file && reader.sum == sum && reader.checksum && fresh(reader) && reader.filePos <= |file|
      invariant mem + Replay(Reading.ReadAll(file, sum, true, reader.St())) == all
      decreases Reading.Unread(file, reader.St())
    {
      var record := reader.ReadNext();
      if record.None? {
        assert mem + [] == mem;
        return;
      }
      ghost var rest := Reading.ReadAll(file, sum, true, reader.St());
      assert ([record.value] + rest)[1..] == rest;
      assert mem + (Inserted(record.value) + Replay(rest)) == mem + Inserted(record.value) + Replay(rest);
      var entries := InsertInto(record.value);
      mem := mem + entries;
    }
  }

  method InsertInto(d: seq<byte>) returns (entries: seq<Entry>)
    ensures entries == Inserted(d)
  {
    if |d| < BATCH_HEADER {
      return [];
    }
    var batch := new WriteBatch();
    batch.rep := d;
    var ops, ok := batch.Iterate();
    entries := Entries(Sequence(d), ops);
  }

  // ----------------------------------------------------------------- end to end

  lemma CodedPrefix(rs: seq<Record>, n: nat)
    requires n <= |rs|
    ensures Coded(rs[..n]) == Coded(rs)[..n]
  {
    hide Contents;
  }

  /** A record on disk is read back, in its place, from whatever a crash leaves of its file. */
  lemma DurableRecord(s: State, starts: seq<nat>, f: nat, p: nat, sum: Format.Checksum, checksum: bool, bytes: seq<byte>)
    requires FilesOk(s, starts) && InFile(starts, f, p) && p in s.durable && sum.Good() && Left(s, starts, f, sum, bytes)
    ensures var records := Reading.ReadAll(bytes, sum, checksum, Reading.FRESH);
            p < |s.log| && p - starts[f] < |records| && records[p - starts[f]] == Contents(s.log[p])
  {
    hide FilesOk, Left, FileRecords, Format.LogOf, Reading.ReadAll, Contents, Coded;
    LeftHolds(s, starts, f, p, sum, bytes);
    var rs, j := FileRecords(s, starts, f), p - starts[f];
    CodedPrefix(rs, j + 1);
    Reading.RecordSurvives(bytes, sum, checksum, Coded(rs), j);
  }

  lemma LeftHolds(s: State, starts: seq<nat>, f: nat, p: nat, sum: Format.Checksum, bytes: seq<byte>)
    requires FilesOk(s, starts) && InFile(starts, f, p) && p in s.durable && Left(s, starts, f, sum, bytes)
    ensures var rs, j := FileRecords(s, starts, f), p - starts[f];
            && p < |s.log| && j < |rs| && rs[j] == s.log[p]
            && bytes <= Format.LogOf(Coded(rs), sum) && |Format.LogOf(Coded(rs[..j + 1]), sum)| <= |bytes|
  {
    FileBounds(s, starts, f);
    DurableInLog(s, starts, p);
    hide FilesOk, Format.LogOf, Contents, Coded;
    var rs, j := FileRecords(s, starts, f), p - starts[f];
    assert rs[..j + 1] == s.log[starts[f]..p + 1];
  }

  lemma DurableInLog(s: State, starts: seq<nat>, p: nat)
    requires FilesOk(s, starts) && p in s.durable
    ensures p < |s.log|
  {
  }

  /**
   * End-to-end durability.  In every run, a write that asked for sync and was told Ok is in
   * some log file such that, whatever a crash leaves of that file behind its synced part,
   * recovery reads the record of the write's group in its place, and puts every operation of
   * the write into the memtable under its own sequence number.
   */
  lemma DurableWrite(base: nat, run: seq<Action>, s: State, w: nat, sum: Format.Checksum) returns (k: nat, f: nat)
    requires Run(Opened(base), run) && After(Opened(base), run) == s && sum.Good()
    requires w < s.head <= |s.writers| && w < |s.calls| && s.writers[w].status == Ok && s.calls[w].batch.Some? && s.calls[w].sync
    requires forall p :: 0 <= p < |s.log| ==> Storable(s.log[p])
    ensures Serves(s.history, k, w) && FilesOk(s, Starts(base, run)) && InFile(Starts(base, run), f, LogIndex(s.history, k))
    ensures forall bytes :: Left(s, Starts(base, run), f, sum, bytes) ==>
              var (records, p, ops) := (Reading.ReadAll(bytes, sum, true, Reading.FRESH), LogIndex(s.history, k), OpsOf(s.calls[w]));
              && p < |s.log| && p - Starts(base, run)[f] < |records| && records[p - Starts(base, run)[f]] == Contents(s.log[p])
              && forall i :: 0 <= i < |ops| ==> Entry(Stamp(s.calls, s.history[k], w) + i, ops[i]) in Replay(records)
  {
    hide Run, After, FilesOk, Left, LogIndex, Offset, Reading.ReadAll, Replay, Contents, Storable;
    assert Reachable(base, s);
    k := AcknowledgedWrite(base, s, w);
    FilesRun(base, run);
    var starts, p := Starts(base, run), LogIndex(s.history, k);
    FilesBegin(s, starts);
    f := FileOf(starts, p);
    forall bytes | Left(s, starts, f, sum, bytes)
      ensures var (records, ops) := (Reading.ReadAll(bytes, sum, true, Reading.FRESH), OpsOf(s.calls[w]));
              && p - starts[f] < |records| && records[p - starts[f]] == Contents(s.log[p])
              && forall i :: 0 <= i < |ops| ==> Entry(Stamp(s.calls, s.history[k], w) + i, ops[i]) in Replay(records)
    {
      DurableRecord(s, starts, f, p, sum, true, bytes);
      RecoveredOps(s.log[p], OpsOf(s.calls[w]), Offset(s.calls, s.history[k], w), Reading.ReadAll(bytes, sum, true, Reading.FRESH), p - starts[f]);
    }
  }

  lemma FilesBegin(s: State, starts: seq<nat>)
    requires FilesOk(s, starts)
    ensures starts != [] && starts[0] == 0
  {
  }

  lemma RecoveredOps(r: Record, ops: seq<Op>, o: nat, records: seq<seq<byte>>, j: nat)
    requires Storable(r) && o + |ops| <= |r.ops| && r.ops[o..o + |ops|] == ops && j < |records| && records[j] == Contents(r)
    ensures forall i :: 0 <= i < |ops| ==> Entry(r.first + o + i, ops[i]) in Replay(records)
  {
    hide Storable, Contents, Inserted, Replay;
    InsertedBatch(r);
    forall i | 0 <= i < |ops| ensures Entry(r.first + o + i, ops[i]) in Replay(records) {
      assert ops[i] == r.ops[o + i];
      assert Entries(r.first, r.ops)[o + i] == Entry(r.first + (o + i), r.ops[o + i]);
      ReplayHas(records, j, Entry(r.first + o + i, ops[i]));
    }
  }
}
