/** The compaction loop (database/leveldb/db/db_impl.cc, DoCompactionWork): which entries are dropped,
    how the rest is cut into files, and when a read can tell the difference. The input iterator is a
    sorted sequence of entries; `IsBaseLevelForKey` is a test that holds only of keys without older
    data. */
module Compaction {
  import opened Bytes
  import opened Lex
  import opened DbFormat
  import opened Snapshots

  type KeyTest = seq<byte> -> bool

  // ---------- The drop rule ----------

  /** The variables has_current_user_key, current_user_key and last_sequence_for_key. */
  datatype Scan = Scan(has: bool, user: seq<byte>, last: nat)

  const START: Scan := Scan(false, [], MAX_SEQUENCE)

  /** The variables after looking at the entry's user key. */
  function AtKey(e: Entry, st: Scan): Scan {
    if !e.Ok() then START
    else if !st.has || e.user != st.user then Scan(true, e.user, MAX_SEQUENCE)
    else st
  }

  predicate Drops(e: Entry, st: Scan, smallest: nat, base: KeyTest) {
    && e.Ok()
    && (|| AtKey(e, st).last <= smallest
        || (e.IsDeletion() && e.Sequence() <= smallest && base(e.user)))
  }

  function Next(e: Entry, st: Scan): Scan {
    if e.Ok() then AtKey(e, st).(last := e.Sequence()) else START
  }

  function Kept(es: seq<Entry>, st: Scan, smallest: nat, base: KeyTest): seq<Entry> {
    if es == [] then []
    else (if Drops(es[0], st, smallest, base) then [] else [es[0]]) + Kept(es[1..], Next(es[0], st), smallest, base)
  }

  // ---------- The loop ----------

  /** One output table with its recorded bounds. */
  datatype Output = Output(entries: seq<Entry>, smallest: Entry, largest: Entry)

  ghost predicate GoodOutput(o: Output) {
    o.entries != [] && o.smallest == o.entries[0] && o.largest == o.entries[|o.entries| - 1]
  }

  function Concat(os: seq<Output>): seq<Entry> {
    if os == [] then [] else Concat(os[..|os| - 1]) + os[|os| - 1].entries
  }

  lemma ConcatSnoc(os: seq<Output>, o: Output)
    ensures Concat(os + [o]) == Concat(os) + o.entries
  {
    assert (os + [o])[..|os|] == os;
  }

  /** What the outputs and the open table hold so far, followed by what is still to be kept. */
  ghost predicate Progress(os: seq<Output>, table: seq<Entry>, rest: seq<Entry>, all: seq<Entry>) {
    && Concat(os) + table + rest == all
    && forall i :: 0 <= i < |os| ==> GoodOutput(os[i])
  }

  // ---------- Where outputs end ----------

  type StopTest = nat -> bool
  type FullTest = seq<Entry> -> bool

  /** No cut was asked for between an entry and the next. */
  ghost predicate Joined(a: nat, b: nat, stopBefore: StopTest) {
    a < b && forall i :: a < i <= b ==> !stopBefore(i)
  }

  /** The table's entries stand at these positions of the input, and no test asked for a cut between two of them. */
  ghost predicate Uncut(input: seq<Entry>, table: seq<Entry>, at: seq<nat>, stopBefore: StopTest, full: FullTest) {
    && |table| == |at|
    && (forall n :: 0 <= n < |at| ==> at[n] < |input| && input[at[n]] == table[n])
    && (forall n :: 0 < n < |at| ==> Joined(at[n - 1], at[n], stopBefore))
    && (forall n :: 0 < n < |table| ==> !full(table[..n]))
  }

  /** A test asked for the end of a table whose last entry is at `last`, before the entry at `next`. */
  ghost predicate CutFor(table: seq<Entry>, last: nat, next: nat, stopBefore: StopTest, full: FullTest) {
    full(table) || exists i :: last < i <= next && stopBefore(i)
  }

  ghost predicate Cuts(input: seq<Entry>, os: seq<Output>, ats: seq<seq<nat>>, stopBefore: StopTest, full: FullTest) {
    && |os| == |ats|
    && (forall j :: 0 <= j < |os| ==> ats[j] != [] && Uncut(input, os[j].entries, ats[j], stopBefore, full))
    && (forall j :: 0 < j < |os| ==> CutFor(os[j - 1].entries, ats[j - 1][|ats[j - 1]| - 1], ats[j][0], stopBefore, full))
  }

  /** The state of the cuts before the entry at `i`. */
  ghost predicate CutsSoFar(input: seq<Entry>, os: seq<Output>, ats: seq<seq<nat>>, table: seq<Entry>, at: seq<nat>, i: nat,
                            stopBefore: StopTest, full: FullTest)
  {
    && Cuts(input, os, ats, stopBefore, full) && Uncut(input, table, at, stopBefore, full)
    && (os != [] ==> CutFor(os[|os| - 1].entries, ats[|ats| - 1][|ats[|ats| - 1]| - 1], if at == [] then i else at[0], stopBefore, full))
    && (at != [] ==> at[|at| - 1] < i && !full(table) && forall q :: at[|at| - 1] < q < i ==> !stopBefore(q))
  }

  /** The open table ends before the entry at `i`, because a test asked for it. */
  lemma CutHere(input: seq<Entry>, os: seq<Output>, ats: seq<seq<nat>>, table: seq<Entry>, at: seq<nat>, i: nat,
                stopBefore: StopTest, full: FullTest, o: Output)
    requires Cuts(input, os, ats, stopBefore, full) && Uncut(input, table, at, stopBefore, full) && at != [] && at[|at| - 1] < i
    requires os != [] ==> CutFor(os[|os| - 1].entries, ats[|ats| - 1][|ats[|ats| - 1]| - 1], at[0], stopBefore, full)
    requires o.entries == table
    ensures Cuts(input, os + [o], ats + [at], stopBefore, full)
    ensures stopBefore(i) || full(table) ==> CutsSoFar(input, os + [o], ats + [at], [], [], i, stopBefore, full)
  {
    hide Uncut;
    var all, marks := os + [o], ats + [at];
    forall j | 0 <= j < |all| ensures marks[j] != [] && Uncut(input, all[j].entries, marks[j], stopBefore, full) {
    }
    NoEntries(input, stopBefore, full);
  }

  lemma NoEntries(input: seq<Entry>, stopBefore: StopTest, full: FullTest)
    ensures Uncut(input, [], [], stopBefore, full)
  {}

  /** A dropped entry leaves the cuts as they are. */
  lemma CutsPass(input: seq<Entry>, os: seq<Output>, ats: seq<seq<nat>>, table: seq<Entry>, at: seq<nat>, i: nat,
                 stopBefore: StopTest, full: FullTest)
    requires CutsSoFar(input, os, ats, table, at, i, stopBefore, full) && (at == [] || !stopBefore(i))
    ensures CutsSoFar(input, os, ats, table, at, i + 1, stopBefore, full)
  {
    hide Uncut, Cuts;
  }

  /** A kept entry goes to the end of the open table. */
  lemma CutsAdd(input: seq<Entry>, os: seq<Output>, ats: seq<seq<nat>>, table: seq<Entry>, at: seq<nat>, i: nat,
                stopBefore: StopTest, full: FullTest)
    requires CutsSoFar(input, os, ats, table, at, i, stopBefore, full) && (at == [] || !stopBefore(i)) && i < |input|
    ensures Uncut(input, table + [input[i]], at + [i], stopBefore, full)
    ensures os != [] ==> CutFor(os[|os| - 1].entries, ats[|ats| - 1][|ats[|ats| - 1]| - 1], (at + [i])[0], stopBefore, full)
    ensures !full(table + [input[i]]) ==> CutsSoFar(input, os, ats, table + [input[i]], at + [i], i + 1, stopBefore, full)
  {
    hide Cuts;
    var more := table + [input[i]];
    forall n | 0 < n < |more| ensures !full(more[..n]) {
      assert more[..n] == if n < |table| then table[..n] else table;
    }
  }

  /** FinishCompactionOutputFile: the open table becomes an output. */
  method Finish(os: seq<Output>, table: seq<Entry>, ghost rest: seq<Entry>, ghost all: seq<Entry>) returns (next: seq<Output>)
    requires table != [] && Progress(os, table, rest, all)
    ensures Progress(next, [], rest, all) && next == os + [Output(table, table[0], table[|table| - 1])]
  {
    var o := Output(table, table[0], table[|table| - 1]);
    next := os + [o];
    ConcatSnoc(os, o);
    assert Concat(os) + table + rest == Concat(next) + [] + rest;
  }

  /** The loop over the input. `stopBefore` and `full` stand for ShouldStopBefore and the size test,
      `cutAt` for the round in which a shutdown or a file error ends the run (none when past the end).
      The outputs hold the kept entries in order; an output ends where one of the tests asks for it,
      or with the input, and nowhere else. `ats` says where in the input the entries stand. */
  method DoCompactionWork(input: seq<Entry>, smallest: nat, base: KeyTest, stopBefore: nat -> bool,
                          full: seq<Entry> -> bool, cutAt: nat)
    returns (ok: bool, outputs: seq<Output>, ghost ats: seq<seq<nat>>)
    ensures ok <==> cutAt > |input|
    ensures ok ==> Concat(outputs) == Kept(input, START, smallest, base)
    ensures ok ==> forall i :: 0 <= i < |outputs| ==> GoodOutput(outputs[i])
    ensures ok ==> Cuts(input, outputs, ats, stopBefore, full)
  {
    hide Kept, Concat, Drops, Next, Progress, CutsSoFar, Cuts, Uncut, CutFor;
    ghost var all := Kept(input, START, smallest, base);
    outputs, ats := [], [];
    var table: seq<Entry> := [];
    ghost var at: seq<nat> := [];
    var st := START;
    var i := 0;
    assert input[0..] == input;
    NoProgress(all);
    NoCuts(input, stopBefore, full);
    while i < |input|
      invariant 0 <= i <= |input| && i <= cutAt
      invariant Progress(outputs, table, Kept(input[i..], st, smallest, base), all)
      invariant |table| == |at| && CutsSoFar(input, outputs, ats, table, at, i, stopBefore, full)
    {
      if i == cutAt { return false, [], []; }
      var e := input[i];
      ghost var rest := Kept(input[i..], st, smallest, base);
      ghost var later := Kept(input[i + 1..], Next(e, st), smallest, base);
      KeptStep(input, i, st, smallest, base);
      if stopBefore(i) && table != [] {
        CutOpen(input, outputs, ats, table, at, i, stopBefore, full);
        outputs := Finish(outputs, table, rest, all);
        ats := ats + [at];
        table, at := [], [];
      }
      if !Drops(e, st, smallest, base) {
        AddToTable(outputs, table, e, later, all);
        CutsAdd(input, outputs, ats, table, at, i, stopBefore, full);
        CutsParts(input, outputs, ats, table, at, i, stopBefore, full);
        table, at := table + [e], at + [i];
        if full(table) {
          CutHere(input, outputs, ats, table, at, i + 1, stopBefore, full, Output(table, table[0], table[|table| - 1]));
          outputs := Finish(outputs, table, later, all);
          ats := ats + [at];
          table, at := [], [];
        }
      } else {
        CutsPass(input, outputs, ats, table, at, i, stopBefore, full);
      }
      st := Next(e, st);
      i := i + 1;
    }
    if i == cutAt { return false, [], []; }
    assert input[i..] == [];
    KeptEnd(input[i..], st, smallest, base);
    CutsParts(input, outputs, ats, table, at, i, stopBefore, full);
    if table != [] {
      CutOpen(input, outputs, ats, table, at, i, stopBefore, full);
      outputs := Finish(outputs, table, [], all);
      ats := ats + [at];
    }
    ok := true;
    FullProgress(outputs, all);
  }

  lemma NoCuts(input: seq<Entry>, stopBefore: StopTest, full: FullTest)
    ensures CutsSoFar(input, [], [], [], [], 0, stopBefore, full)
  {}

  lemma CutsParts(input: seq<Entry>, os: seq<Output>, ats: seq<seq<nat>>, table: seq<Entry>, at: seq<nat>, i: nat,
                  stopBefore: StopTest, full: FullTest)
    requires CutsSoFar(input, os, ats, table, at, i, stopBefore, full)
    ensures Cuts(input, os, ats, stopBefore, full) && |os| == |ats| && (os != [] ==> ats[|ats| - 1] != [])
  {}

  lemma CutOpen(input: seq<Entry>, os: seq<Output>, ats: seq<seq<nat>>, table: seq<Entry>, at: seq<nat>, i: nat,
                stopBefore: StopTest, full: FullTest)
    requires CutsSoFar(input, os, ats, table, at, i, stopBefore, full) && table != []
    ensures var o := Output(table, table[0], table[|table| - 1]);
            && Cuts(input, os + [o], ats + [at], stopBefore, full)
            && (stopBefore(i) ==> CutsSoFar(input, os + [o], ats + [at], [], [], i, stopBefore, full))
  {
    hide Cuts, CutFor;
    CutHere(input, os, ats, table, at, i, stopBefore, full, Output(table, table[0], table[|table| - 1]));
  }

  lemma KeptStep(input: seq<Entry>, i: nat, st: Scan, smallest: nat, base: KeyTest)
    requires i < |input|
    ensures var later := Kept(input[i + 1..], Next(input[i], st), smallest, base);
            Kept(input[i..], st, smallest, base) == if Drops(input[i], st, smallest, base) then later else [input[i]] + later
  {
    hide Drops, Next;
    assert input[i..][1..] == input[i + 1..];
  }

  lemma KeptEnd(es: seq<Entry>, st: Scan, smallest: nat, base: KeyTest)
    requires es == []
    ensures Kept(es, st, smallest, base) == []
  {}

  lemma NoProgress(all: seq<Entry>)
    ensures Progress([], [], all, all)
  {}

  lemma FullProgress(os: seq<Output>, all: seq<Entry>)
    requires Progress(os, [], [], all)
    ensures Concat(os) == all && forall i :: 0 <= i < |os| ==> GoodOutput(os[i])
  {
    assert Concat(os) + [] + [] == Concat(os);
  }

  lemma AddToTable(os: seq<Output>, table: seq<Entry>, e: Entry, later: seq<Entry>, all: seq<Entry>)
    requires Progress(os, table, [e] + later, all)
    ensures Progress(os, table + [e], later, all)
  {
    assert Concat(os) + table + ([e] + later) == Concat(os) + (table + [e]) + later;
  }

  // ---------- What reads see ----------

  /** The position of the entry that answers a read, or the length. */
  function First(es: seq<Entry>, k: seq<byte>, s: nat): (i: nat)
    ensures i <= |es|
    ensures i < |es| ==> Visible(es[i], k, s)
    ensures forall j :: 0 <= j < i ==> !Visible(es[j], k, s)
  {
    if es == [] then 0 else if Visible(es[0], k, s) then 0 else First(es[1..], k, s) + 1
  }

  lemma {:induction false} ReadFirst(es: seq<Entry>, k: seq<byte>, s: nat)
    ensures Read(es, k, s) == if First(es, k, s) < |es| then AnswerOf(es[First(es, k, s)]) else Absent
  {
    if es != [] && !Visible(es[0], k, s) { ReadFirst(es[1..], k, s); }
  }

  /** The answer is a tombstone that the drop rule removes. */
  ghost predicate Forgotten(es: seq<Entry>, k: seq<byte>, s: nat, smallest: nat, base: KeyTest) {
    var i := First(es, k, s);
    i < |es| && es[i].IsDeletion() && es[i].Sequence() <= smallest && base(k)
  }

  /** The scan has met an entry of `k` that hides all older ones. */
  ghost predicate Reached(st: Scan, k: seq<byte>, smallest: nat) {
    st.has && st.user == k && st.last <= smallest
  }

  lemma TailSorted(es: seq<Entry>)
    requires SortedEntries(es) && es != []
    ensures SortedEntries(es[1..])
  {
    hide Before;
  }

  /** Up to the answering entry nothing is lost: the read finds the same entry, unless that is a
      tombstone to forget, and then the read goes on behind it. */
  lemma {:induction false} KeptRead(es: seq<Entry>, st: Scan, k: seq<byte>, s: nat, smallest: nat, base: KeyTest)
    requires SortedEntries(es) && smallest < MAX_SEQUENCE && smallest <= s && !Reached(st, k, smallest)
    ensures !Forgotten(es, k, s, smallest, base) ==> Read(Kept(es, st, smallest, base), k, s) == Read(es, k, s)
    ensures Forgotten(es, k, s, smallest, base) ==>
              var i := First(es, k, s);
              && Read(es, k, s) == Deleted
              && Read(Kept(es, st, smallest, base), k, s) == Read(Kept(es[i + 1..], Scan(true, k, es[i].Sequence()), smallest, base), k, s)
  {
    if es != [] {
      var e := es[0];
      ReadHead(e, Kept(es[1..], Next(e, st), smallest, base), k, s);
      if !Visible(e, k, s) {
        TailSorted(es);
        KeptRead(es[1..], Next(e, st), k, s, smallest, base);
        var i := First(es[1..], k, s);
        if i < |es[1..]| { assert es[1..][i + 1..] == es[i + 2..]; }
      } else {
        assert Drops(e, st, smallest, base) ==> e.IsDeletion() && e.Sequence() <= smallest && base(k);
      }
    }
  }

  lemma ReadHead(e: Entry, rest: seq<Entry>, k: seq<byte>, s: nat)
    ensures Read([e] + rest, k, s) == if Visible(e, k, s) then AnswerOf(e) else Read(rest, k, s)
    ensures Read([] + rest, k, s) == Read(rest, k, s)
  {
    assert ([e] + rest)[1..] == rest;
    assert [] + rest == rest;
  }

  // ---------- Behind a forgotten tombstone ----------

  /** A key that does not parse stands right before a value of the same user key. */
  predicate Exposed(es: seq<Entry>, k: seq<byte>, j: nat) {
    && 0 < j < |es|
    && es[j - 1].user == k && !es[j - 1].Ok()
    && es[j].user == k && es[j].Ok() && !es[j].IsDeletion()
  }

  ghost predicate Exposes(es: seq<Entry>, k: seq<byte>) { exists j: nat :: Exposed(es, k, j) }

  predicate IsValueOf(e: Entry, k: seq<byte>) { e.user == k && e.Ok() && !e.IsDeletion() }

  lemma ExposesTail(es: seq<Entry>, k: seq<byte>)
    requires es != []
    ensures Exposes(es, k) <==> Exposes(es[1..], k) || Exposed(es, k, 1)
  {
    if Exposes(es, k) {
      var j: nat :| Exposed(es, k, j);
      if j > 1 { assert Exposed(es[1..], k, j - 1); }
    }
    if Exposes(es[1..], k) {
      var j: nat :| Exposed(es[1..], k, j);
      assert Exposed(es, k, j + 1);
    }
  }

  lemma {:induction false} NoneOfKey(es: seq<Entry>, st: Scan, k: seq<byte>, s: nat, smallest: nat, base: KeyTest)
    requires forall i :: 0 <= i < |es| ==> es[i].user != k
    ensures Read(Kept(es, st, smallest, base), k, s) == Absent
  {
    if es != [] {
      NoneOfKey(es[1..], Next(es[0], st), k, s, smallest, base);
      ReadHead(es[0], Kept(es[1..], Next(es[0], st), smallest, base), k, s);
    }
  }

  /** No entry has a user key below `k`. */
  ghost predicate NotBelow(es: seq<Entry>, k: seq<byte>) {
    forall i :: 0 <= i < |es| ==> es[i].user == k || Less(k, es[i].user)
  }

  lemma PastKey(es: seq<Entry>, k: seq<byte>)
    requires SortedEntries(es) && NotBelow(es, k) && es != [] && es[0].user != k
    ensures forall i :: 0 <= i < |es| ==> es[i].user != k
  {
    forall i | 0 <= i < |es| ensures es[i].user != k {
      if i > 0 {
        assert Before(es[0], es[i]);
        hide Less;
        LessIrreflexive(k);
        if Less(es[0].user, es[i].user) { LessTransitive(k, es[0].user, es[i].user); }
      }
    }
  }

  lemma NotBelowTail(es: seq<Entry>, k: seq<byte>)
    requires NotBelow(es, k) && es != []
    ensures NotBelow(es[1..], k)
  {
    hide Less;
  }

  /** Behind a forgotten tombstone all older entries of the key are dropped, except values that stand
      right behind a key that does not parse. */
  lemma {:induction false} OldEntries(es: seq<Entry>, st: Scan, k: seq<byte>, s: nat, smallest: nat, base: KeyTest)
    requires SortedEntries(es) && NotBelow(es, k) && smallest < MAX_SEQUENCE && smallest <= s && base(k)
    requires forall i :: 0 <= i < |es| && es[i].user == k ==> es[i].Sequence() <= smallest
    requires st == START || Reached(st, k, smallest)
    ensures var a := Read(Kept(es, st, smallest, base), k, s);
            && a != Deleted
            && (a != Absent <==> Exposes(es, k) || (st == START && es != [] && IsValueOf(es[0], k)))
    decreases es, 1
  {
    if es == [] {
    } else if es[0].user != k {
      PastKey(es, k);
      NoneOfKey(es, st, k, s, smallest, base);
    } else {
      OldHead(es, st, k, s, smallest, base);
    }
  }

  lemma {:induction false} OldHead(es: seq<Entry>, st: Scan, k: seq<byte>, s: nat, smallest: nat, base: KeyTest)
    requires SortedEntries(es) && NotBelow(es, k) && smallest < MAX_SEQUENCE && smallest <= s && base(k)
    requires forall i :: 0 <= i < |es| && es[i].user == k ==> es[i].Sequence() <= smallest
    requires st == START || Reached(st, k, smallest)
    requires es != [] && es[0].user == k
    ensures var a := Read(Kept(es, st, smallest, base), k, s);
            && a != Deleted
            && (a != Absent <==> Exposes(es, k) || (st == START && es != [] && IsValueOf(es[0], k)))
    decreases es, 0
  {
    var e := es[0];
    TailSorted(es);
    NotBelowTail(es, k);
    ReadHead(e, Kept(es[1..], Next(e, st), smallest, base), k, s);
    ExposesTail(es, k);
    OldEntries(es[1..], Next(e, st), k, s, smallest, base);
  }

  // ---------- The theorems ----------

  /** A tombstone of `k` is forgotten although a key that does not parse shields an older value. */
  ghost predicate Resurrects(es: seq<Entry>, k: seq<byte>, smallest: nat, base: KeyTest) {
    Forgotten(es, k, smallest, smallest, base) && Exposes(es[First(es, k, smallest) + 1..], k)
  }

  /** The read at `s` falls back to the smallest snapshot's entry when nothing newer is visible. */
  lemma {:induction false} FirstAtSmallest(es: seq<Entry>, k: seq<byte>, s: nat, smallest: nat)
    requires smallest <= s
    requires First(es, k, s) < |es| && es[First(es, k, s)].Sequence() <= smallest
    ensures First(es, k, smallest) == First(es, k, s)
  {
    var i, j := First(es, k, s), First(es, k, smallest);
    hide First;
    assert Visible(es[i], k, smallest);
    assert j < |es| ==> Visible(es[j], k, s);
  }

  /** What is behind the answering entry is older and not below the key. */
  lemma BehindFirst(es: seq<Entry>, i: nat, k: seq<byte>, rest: seq<Entry>)
    requires SortedEntries(es) && i < |es| && es[i].user == k && rest == es[i + 1..]
    ensures SortedEntries(rest) && NotBelow(rest, k)
    ensures forall j :: 0 <= j < |rest| && rest[j].user == k ==> rest[j].Sequence() <= es[i].Sequence()
  {
    hide Less;
    forall j | 0 <= j < |rest|
      ensures rest[j].user == k || Less(k, rest[j].user)
      ensures rest[j].user == k ==> rest[j].Sequence() <= es[i].Sequence()
    {
      assert Before(es[i], es[i + 1 + j]);
      LessIrreflexive(k);
    }
  }

  /** One run: the kept entries give the same answer, or the answer was a tombstone and there is now
      none, unless an exposed value comes back. */
  lemma CompactedRead(es: seq<Entry>, k: seq<byte>, s: nat, smallest: nat, base: KeyTest)
    requires SortedEntries(es) && smallest < MAX_SEQUENCE && smallest <= s
    ensures var a, b := Read(es, k, s), Read(Kept(es, START, smallest, base), k, s);
            if !Forgotten(es, k, s, smallest, base) then b == a
            else base(k) && a == Deleted && (if Resurrects(es, k, smallest, base) then b.Present? else b == Absent)
  {
    hide Kept, Exposes;
    KeptRead(es, START, k, s, smallest, base);
    if Forgotten(es, k, s, smallest, base) {
      var i := First(es, k, s);
      FirstAtSmallest(es, k, s, smallest);
      BehindFirst(es, i, k, es[i + 1..]);
      hide First, Read;
      OldEntries(es[i + 1..], Scan(true, k, es[i].Sequence()), k, s, smallest, base);
    }
  }

  lemma ReadAllSplit(above: seq<seq<Entry>>, below: seq<seq<Entry>>, k: seq<byte>, s: nat)
    ensures ReadAll(above + below, k, s) == if ReadAll(above, k, s) != Absent then ReadAll(above, k, s) else ReadAll(below, k, s)
  {
    if above == [] {
      assert above + below == below;
    } else {
      assert (above + below)[1..] == above[1..] + below;
      ReadAllSplit(above[1..], below, k, s);
    }
  }

  /** The contract of IsBaseLevelForKey: no older run knows the key. */
  ghost predicate BaseTest(base: KeyTest, deeper: seq<seq<Entry>>) {
    forall k, s: nat :: base(k) ==> ReadAll(deeper, k, s) == Absent
  }

  lemma GetBelow(run: seq<Entry>, deeper: seq<seq<Entry>>, k: seq<byte>, s: nat)
    ensures ReadAll([run] + deeper, k, s) == if Read(run, k, s) != Absent then Read(run, k, s) else ReadAll(deeper, k, s)
  {
    assert ([run] + deeper)[1..] == deeper;
  }

  /** Compaction keeps every read that can still be asked for, wherever newer and older runs stand. */
  lemma CompactionPreservesReads(above: seq<seq<Entry>>, es: seq<Entry>, deeper: seq<seq<Entry>>, k: seq<byte>, s: nat, smallest: nat, base: KeyTest)
    requires SortedEntries(es) && smallest < MAX_SEQUENCE && smallest <= s && BaseTest(base, deeper)
    requires !Resurrects(es, k, smallest, base)
    ensures Get(above + [Kept(es, START, smallest, base)] + deeper, k, s) == Get(above + [es] + deeper, k, s)
  {
    var kept := Kept(es, START, smallest, base);
    CompactedRead(es, k, s, smallest, base);
    hide Kept, Read, ReadAll, Resurrects, Forgotten;
    assert above + [kept] + deeper == above + ([kept] + deeper) && above + [es] + deeper == above + ([es] + deeper);
    ReadAllSplit(above, [kept] + deeper, k, s);
    ReadAllSplit(above, [es] + deeper, k, s);
    GetBelow(kept, deeper, k, s);
    GetBelow(es, deeper, k, s);
  }

  /** And exactly then: with nothing newer, a key that resurrects is read wrongly at the smallest
      snapshot. */
  lemma CompactionExact(es: seq<Entry>, deeper: seq<seq<Entry>>, k: seq<byte>, smallest: nat, base: KeyTest)
    requires SortedEntries(es) && smallest < MAX_SEQUENCE && BaseTest(base, deeper)
    ensures (forall s: nat :: smallest <= s ==> Get([Kept(es, START, smallest, base)] + deeper, k, s) == Get([es] + deeper, k, s))
            <==> !Resurrects(es, k, smallest, base)
  {
    var kept := Kept(es, START, smallest, base);
    hide Kept, ReadAll;
    if Resurrects(es, k, smallest, base) {
      CompactedRead(es, k, smallest, smallest, base);
      GetBelow(kept, deeper, k, smallest);
      GetBelow(es, deeper, k, smallest);
      assert Get([kept] + deeper, k, smallest) != Get([es] + deeper, k, smallest);
    } else {
      forall s: nat | smallest <= s ensures Get([kept] + deeper, k, s) == Get([es] + deeper, k, s) {
        CompactionPreservesReads([], es, deeper, k, s, smallest, base);
        assert [] + [kept] + deeper == [kept] + deeper && [] + [es] + deeper == [es] + deeper;
      }
    }
  }

  /** When every key parses nothing is ever resurrected. */
  lemma AllKeysParse(es: seq<Entry>, k: seq<byte>, smallest: nat, base: KeyTest)
    requires forall i :: 0 <= i < |es| ==> es[i].Ok()
    ensures !Resurrects(es, k, smallest, base)
  {}

  /** A resurrection: tombstone, unreadable key, older value, at a base level. The key reads as absent
      before and as present after. */
  lemma ResurrectionExample(k: seq<byte>, v: seq<byte>, smallest: nat, base: KeyTest)
    requires 5 <= smallest < MAX_SEQUENCE && base(k)
    ensures var es := [Entry(k, 5 * 256, []), Entry(k, 3 * 256 + 7, []), Entry(k, 2 * 256 + 1, v)];
            && SortedEntries(es) && Resurrects(es, k, smallest, base)
            && Get([es], k, smallest) == None && Get([Kept(es, START, smallest, base)], k, smallest) != None
  {
    var es := [Entry(k, 5 * 256, []), Entry(k, 3 * 256 + 7, []), Entry(k, 2 * 256 + 1, v)];
    assert First(es, k, smallest) == 0;
    assert Exposed(es[1..], k, 1);
    CompactedRead(es, k, smallest, smallest, base);
    hide Kept;
  }

  /** At the very last sequence number the marker for "no entry yet" no longer works: everything that
      parses is dropped. */
  lemma {:induction false} LastSequenceDropsAll(es: seq<Entry>, st: Scan, base: KeyTest)
    requires forall i :: 0 <= i < |es| ==> es[i].Ok() && es[i].Sequence() <= MAX_SEQUENCE
    requires st.last <= MAX_SEQUENCE
    ensures Kept(es, st, MAX_SEQUENCE, base) == []
  {
    if es != [] { LastSequenceDropsAll(es[1..], Next(es[0], st), base); }
  }

  lemma {:induction false} KeptMember(es: seq<Entry>, st: Scan, smallest: nat, base: KeyTest, i: nat) returns (j: nat)
    requires i < |Kept(es, st, smallest, base)|
    ensures j < |es| && Kept(es, st, smallest, base)[i] == es[j]
  {
    hide Drops, Next;
    var h := if Drops(es[0], st, smallest, base) then 0 else 1;
    if i < h {
      j := 0;
    } else {
      j := KeptMember(es[1..], Next(es[0], st), smallest, base, i - h);
      j := j + 1;
    }
  }

  /** The output is again a sorted run, so the files cut from it do not overlap. */
  lemma {:induction false} KeptSorted(es: seq<Entry>, st: Scan, smallest: nat, base: KeyTest)
    requires SortedEntries(es)
    ensures SortedEntries(Kept(es, st, smallest, base))
  {
    hide Drops, Next, Before;
    if es != [] {
      KeptSorted(es[1..], Next(es[0], st), smallest, base);
      var rest := Kept(es[1..], Next(es[0], st), smallest, base);
      forall i | 0 <= i < |rest| ensures Before(es[0], rest[i]) {
        var j := KeptMember(es[1..], Next(es[0], st), smallest, base, i);
        assert es[1..][j] == es[j + 1];
      }
    }
  }

  // ---------- What is dropped ----------

  /** The scan when it comes to entry `i`. */
  function ScanAt(es: seq<Entry>, st: Scan, i: nat): Scan
    requires i <= |es|
  {
    if i == 0 then st else Next(es[i - 1], ScanAt(es, st, i - 1))
  }

  lemma {:induction false} ScanTail(es: seq<Entry>, st: Scan, i: nat)
    requires 0 < i <= |es|
    ensures ScanAt(es, st, i) == ScanAt(es[1..], Next(es[0], st), i - 1)
  {
    hide Next;
    if i > 1 { ScanTail(es, st, i - 1); }
  }

  lemma BeforeNotEqual(a: Entry, b: Entry)
    requires Before(a, b)
    ensures a != b
  {
    LessIrreflexive(a.user);
  }

  lemma {:induction false} KeptIff(es: seq<Entry>, st: Scan, smallest: nat, base: KeyTest, i: nat)
    requires SortedEntries(es) && i < |es|
    ensures es[i] in Kept(es, st, smallest, base) <==> !Drops(es[i], ScanAt(es, st, i), smallest, base)
  {
    hide Drops, Next, Before;
    var rest := Kept(es[1..], Next(es[0], st), smallest, base);
    if i == 0 {
      if es[0] in rest {
        var n :| 0 <= n < |rest| && rest[n] == es[0];
        var j := KeptMember(es[1..], Next(es[0], st), smallest, base, n);
        BeforeNotEqual(es[0], es[j + 1]);
      }
    } else {
      TailSorted(es);
      KeptIff(es[1..], Next(es[0], st), smallest, base, i - 1);
      ScanTail(es, st, i);
      BeforeNotEqual(es[0], es[i]);
    }
  }

  /** The entry in front is of the same key, parses, and is not above the smallest snapshot. */
  predicate Shadowed(es: seq<Entry>, i: nat, smallest: nat)
    requires i < |es|
  {
    i > 0 && es[i - 1].user == es[i].user && es[i - 1].Ok() && es[i - 1].Sequence() <= smallest
  }

  /** A deletion at or below the smallest snapshot of a key that no deeper level has. */
  predicate Forgettable(e: Entry, smallest: nat, base: KeyTest) {
    e.IsDeletion() && e.Sequence() <= smallest && base(e.user)
  }

  /** Which entries are dropped, in any input: of those that parse, exactly the shadowed and the forgettable. */
  lemma KeptExact(es: seq<Entry>, smallest: nat, base: KeyTest, i: nat)
    requires SortedEntries(es) && smallest < MAX_SEQUENCE && i < |es|
    ensures es[i] in Kept(es, START, smallest, base) <==> !es[i].Ok() || (!Shadowed(es, i, smallest) && !Forgettable(es[i], smallest, base))
  {
    hide Kept, Before;
    KeptIff(es, START, smallest, base, i);
  }

  /** The newest entry of its key at or below the smallest snapshot. */
  ghost predicate NewestAtOrBelow(es: seq<Entry>, i: nat, smallest: nat)
    requires i < |es|
  {
    es[i].Sequence() <= smallest && forall j :: 0 <= j < |es| && es[j].user == es[i].user && es[j].Sequence() <= smallest ==> es[j].tag <= es[i].tag
  }

  lemma SameKeyBetween(es: seq<Entry>, j: nat, m: nat, i: nat)
    requires SortedEntries(es) && j <= m <= i < |es| && es[j].user == es[i].user
    ensures es[m].user == es[i].user && es[m].tag <= es[j].tag && es[m].tag >= es[i].tag
  {
    hide Less;
    LessIrreflexive(es[i].user);
    if j < m && m < i {
      assert Before(es[j], es[m]) && Before(es[m], es[i]);
      if Less(es[j].user, es[m].user) && Less(es[m].user, es[i].user) { LessTransitive(es[j].user, es[m].user, es[i].user); }
    } else if j < i {
      assert Before(es[j], es[i]);
    }
  }

  /** In sorted input an entry is shadowed if and only if a newer one of its key is at or below the smallest snapshot as well. */
  lemma ShadowedExact(es: seq<Entry>, i: nat, smallest: nat)
    requires SortedEntries(es) && i < |es| && es[i].Sequence() <= smallest && forall j :: 0 <= j < |es| ==> es[j].Ok()
    ensures Shadowed(es, i, smallest) <==> !NewestAtOrBelow(es, i, smallest)
  {
    hide Before;
    if Shadowed(es, i, smallest) {
      SameKeyBetween(es, i - 1, i - 1, i);
      assert Before(es[i - 1], es[i]);
      OlderBehind(es[i - 1], es[i]);
    } else {
      forall j | 0 <= j < |es| && es[j].user == es[i].user && es[j].Sequence() <= smallest ensures es[j].tag <= es[i].tag {
        if j < i {
          SameKeyBetween(es, j, i - 1, i);
        } else {
          SameKeyBetween(es, i, j, j);
        }
      }
    }
  }

  lemma OlderBehind(a: Entry, b: Entry)
    requires Before(a, b) && a.user == b.user
    ensures a.tag > b.tag
  {
    LessIrreflexive(a.user);
  }

  /**
   * What a compaction keeps when every key parses: everything above the smallest snapshot,
   * and of the entries of a key at or below it the newest alone, unless that is a deletion
   * of a key that no deeper level has.
   */
  lemma KeptNewest(es: seq<Entry>, smallest: nat, base: KeyTest, i: nat)
    requires SortedEntries(es) && smallest < MAX_SEQUENCE && i < |es| && forall j :: 0 <= j < |es| ==> es[j].Ok()
    ensures es[i] in Kept(es, START, smallest, base) <==>
            es[i].Sequence() > smallest || (NewestAtOrBelow(es, i, smallest) && !(es[i].IsDeletion() && base(es[i].user)))
  {
    hide Kept, Before, NewestAtOrBelow;
    KeptExact(es, smallest, base, i);
    if es[i].Sequence() <= smallest {
      ShadowedExact(es, i, smallest);
    } else if i > 0 && es[i - 1].user == es[i].user {
      SameKeyBetween(es, i - 1, i - 1, i);
    }
  }

  /** So of one key at most one entry at or below the smallest snapshot is kept. */
  lemma AtMostOneKept(es: seq<Entry>, smallest: nat, base: KeyTest, i: nat, j: nat)
    requires SortedEntries(es) && smallest < MAX_SEQUENCE && i < j < |es| && es[i].user == es[j].user
    requires es[i].Sequence() <= smallest && forall n :: 0 <= n < |es| ==> es[n].Ok()
    ensures es[j] !in Kept(es, START, smallest, base)
  {
    hide Kept, Before;
    KeptNewest(es, smallest, base, j);
    SameKeyBetween(es, i, i, j);
    assert Before(es[i], es[j]);
    OlderBehind(es[i], es[j]);
  }

  /** Two values of a key and nothing else: the older is dropped. */
  lemma OverwrittenExample(k: seq<byte>, v: seq<byte>, w: seq<byte>, base: KeyTest)
    ensures Kept([Entry(k, 9 * 256 + 1, v), Entry(k, 5 * 256 + 1, w)], START, 100, base) == [Entry(k, 9 * 256 + 1, v)]
  {
    var es := [Entry(k, 9 * 256 + 1, v), Entry(k, 5 * 256 + 1, w)];
    assert es[1..] == [es[1]] && es[1..][1..] == [];
    assert Kept(es[1..], Next(es[0], START), 100, base) == [];
  }

  /** A whole compaction: the smallest snapshot is taken from the list, the loop runs, and the new run
      is installed only when it went to the end. No live snapshot, and no read of the present or a
      later state, can tell the difference, except at a key that the scan resurrects; and at those
      keys, with nothing newer above, some read does. */
  method Compact(source: SnapshotSource, ghost above: seq<seq<Entry>>, es: seq<Entry>, ghost deeper: seq<seq<Entry>>,
                 base: KeyTest, stopBefore: nat -> bool, full: seq<Entry> -> bool, cutAt: nat)
    returns (run: seq<Entry>, smallest: nat, installed: bool)
    requires source.Valid() && source.lastSequence < MAX_SEQUENCE
    requires SortedEntries(es) && BaseTest(base, deeper)
    ensures SortedEntries(run) && (!installed ==> run == es)
    ensures smallest == if source.list.nodes == [] then source.lastSequence else source.list.nodes[0].sequenceNumber
    ensures forall t, k :: t in source.list.nodes && !(installed && Resurrects(es, k, smallest, base)) ==>
              Get(above + [run] + deeper, k, t.sequenceNumber) == Get(above + [es] + deeper, k, t.sequenceNumber)
    ensures forall s: nat, k :: s >= source.lastSequence && !(installed && Resurrects(es, k, smallest, base)) ==>
              Get(above + [run] + deeper, k, s) == Get(above + [es] + deeper, k, s)
    ensures forall k :: (forall s: nat :: smallest <= s ==> Get([run] + deeper, k, s) == Get([es] + deeper, k, s)) <==>
                        !(installed && Resurrects(es, k, smallest, base))
  {
    hide Resurrects, Kept, Get, SortedEntries;
    smallest := source.SmallestSnapshot();
    var ok, outputs, ats := DoCompactionWork(es, smallest, base, stopBefore, full, cutAt);
    if !ok { return es, smallest, false; }
    run, installed := Concat(outputs), true;
    KeptSorted(es, START, smallest, base);
    forall s: nat, k | s >= smallest && !Resurrects(es, k, smallest, base)
      ensures Get(above + [run] + deeper, k, s) == Get(above + [es] + deeper, k, s)
    {
      CompactionPreservesReads(above, es, deeper, k, s, smallest, base);
    }
    forall k
      ensures (forall s: nat :: smallest <= s ==> Get([run] + deeper, k, s) == Get([es] + deeper, k, s)) <==> !Resurrects(es, k, smallest, base)
    {
      CompactionExact(es, deeper, k, smallest, base);
    }
  }
}
