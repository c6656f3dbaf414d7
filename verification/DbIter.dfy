/** The user iterator (database/leveldb/db/db_iter.cc): it moves in both directions over the internal
    entries and shows the map that is visible at one sequence number. The inner iterator is a sorted
    sequence and a position; keys that do not parse are passed over. */
module DbIter {
  import opened Bytes
  import opened Lex
  import opened DbFormat
  import opened Compaction

  // ---------- The visible map ----------

  ghost predicate Live(es: seq<Entry>, s: nat, k: seq<byte>) {
    First(es, k, s) < |es| && !es[First(es, k, s)].IsDeletion()
  }

  lemma LiveIsPresent(es: seq<Entry>, s: nat, k: seq<byte>)
    ensures Live(es, s, k) <==> Read(es, k, s).Present?
    ensures Live(es, s, k) ==> Read(es, k, s) == Present(es[First(es, k, s)].value)
  {
    ReadFirst(es, k, s);
  }

  /** The part of the key space a movement may land in. */
  datatype Bound = All | From(k: seq<byte>) | Above(k: seq<byte>) | Below(k: seq<byte>)

  predicate In(b: Bound, k: seq<byte>) {
    match b
    case All => true
    case From(t) => !Less(k, t)
    case Above(t) => Less(t, k)
    case Below(t) => Less(k, t)
  }

  ghost predicate NoneLive(es: seq<Entry>, s: nat, b: Bound) {
    forall k :: Live(es, s, k) ==> !In(b, k)
  }

  ghost predicate Least(es: seq<Entry>, s: nat, b: Bound, k: seq<byte>) {
    Live(es, s, k) && In(b, k) && forall k' :: Live(es, s, k') && In(b, k') ==> !Less(k', k)
  }

  ghost predicate Greatest(es: seq<Entry>, s: nat, b: Bound, k: seq<byte>) {
    Live(es, s, k) && In(b, k) && forall k' :: Live(es, s, k') && In(b, k') ==> !Less(k, k')
  }

  // ---------- Order of positions and keys ----------

  lemma UserOrder(es: seq<Entry>, i: nat, j: nat)
    requires SortedEntries(es) && i <= j < |es|
    ensures es[i].user == es[j].user || Less(es[i].user, es[j].user)
    ensures !Less(es[j].user, es[i].user)
  {
    LessIrreflexive(es[i].user);
    if i < j {
      assert Before(es[i], es[j]);
      if Less(es[i].user, es[j].user) { LessAsymmetric(es[i].user, es[j].user); }
    }
  }

  lemma UserBefore(es: seq<Entry>, i: nat, j: nat)
    requires SortedEntries(es) && i < |es| && j < |es| && Less(es[i].user, es[j].user)
    ensures i < j
  {
    LessAsymmetric(es[i].user, es[j].user);
    if j <= i { UserOrder(es, j, i); }
  }

  lemma FirstIs(es: seq<Entry>, k: seq<byte>, s: nat, i: nat)
    requires i < |es| && Visible(es[i], k, s)
    requires forall j :: 0 <= j < i ==> !Visible(es[j], k, s)
    ensures First(es, k, s) == i
  {}

  /** Entry `i` is visible at `s` under its own key. */
  predicate Shown(es: seq<Entry>, s: nat, i: nat)
    requires i < |es|
  {
    es[i].Ok() && es[i].Sequence() <= s
  }

  // ---------- Moving forward ----------

  /** The scan stands at `p`: live keys in bounds still lie ahead and are not to be skipped; visible
      entries passed so far are to be skipped. */
  ghost predicate Ahead(es: seq<Entry>, s: nat, p: nat, skipping: bool, skip: seq<byte>, b: Bound) {
    && p <= |es|
    && (forall k :: Live(es, s, k) && In(b, k) ==> First(es, k, s) >= p && (skipping ==> Less(skip, k)))
    && (forall i :: 0 <= i < p && Shown(es, s, i) && In(b, es[i].user) ==> skipping && !Less(skip, es[i].user))
    && (b.Above? ==> skipping && !Less(skip, b.k))
    && (b.Above? || b.From? ==> forall i :: p <= i < |es| && Shown(es, s, i) ==> !Less(es[i].user, b.k))
    && !b.Below?
  }

  lemma AheadPass(es: seq<Entry>, s: nat, p: nat, skipping: bool, skip: seq<byte>, b: Bound)
    requires SortedEntries(es) && p < |es| && Ahead(es, s, p, skipping, skip, b)
    requires !Shown(es, s, p) || (skipping && !Less(skip, es[p].user))
    ensures Ahead(es, s, p + 1, skipping, skip, b)
  {
    hide Less, First, SortedEntries;
    forall k | Live(es, s, k) && In(b, k) ensures First(es, k, s) >= p + 1 {
      assert es[First(es, k, s)].user == k;
    }
  }

  lemma AheadDelete(es: seq<Entry>, s: nat, p: nat, skipping: bool, skip: seq<byte>, b: Bound)
    requires SortedEntries(es) && p < |es| && Ahead(es, s, p, skipping, skip, b)
    requires Shown(es, s, p) && es[p].IsDeletion()
    ensures Ahead(es, s, p + 1, true, es[p].user, b)
  {
    var u := es[p].user;
    forall k | Live(es, s, k) && In(b, k) ensures First(es, k, s) >= p + 1 && Less(u, k) {
      LiveBehind(es, s, p, k);
    }
    hide Less, First, Live;
    forall i | 0 <= i < p + 1 && Shown(es, s, i) && In(b, es[i].user) ensures !Less(u, es[i].user) {
      UserOrder(es, i, p);
    }
  }

  lemma LiveBehind(es: seq<Entry>, s: nat, p: nat, k: seq<byte>)
    requires SortedEntries(es) && p < |es| && Shown(es, s, p) && es[p].IsDeletion()
    requires Live(es, s, k) && First(es, k, s) >= p
    ensures First(es, k, s) >= p + 1 && Less(es[p].user, k)
  {
    var f := First(es, k, s);
    UserOrder(es, p, f);
    if es[p].user == k { FirstAtMost(es, k, s, p); }
  }

  lemma {:induction false} FirstAtMost(es: seq<Entry>, k: seq<byte>, s: nat, p: nat)
    requires p < |es| && Visible(es[p], k, s)
    ensures First(es, k, s) <= p
  {}

  /** A visible value that is not skipped is the least live key in bounds. */
  lemma AheadFound(es: seq<Entry>, s: nat, p: nat, skipping: bool, skip: seq<byte>, b: Bound)
    requires SortedEntries(es) && p < |es| && Ahead(es, s, p, skipping, skip, b)
    requires Shown(es, s, p) && !es[p].IsDeletion() && !(skipping && !Less(skip, es[p].user))
    ensures First(es, es[p].user, s) == p && Least(es, s, b, es[p].user)
  {
    var u := es[p].user;
    assert In(b, u) by { if b.Above? { AboveSkip(b.k, skip, u); } }
    forall j | 0 <= j < p ensures !Visible(es[j], u, s) {
      assert Visible(es[j], u, s) ==> Shown(es, s, j);
    }
    FirstIs(es, u, s, p);
    hide Less, First;
    forall k' | Live(es, s, k') && In(b, k') ensures !Less(k', u) {
      UserOrder(es, p, First(es, k', s));
    }
  }

  lemma AboveSkip(t: seq<byte>, skip: seq<byte>, u: seq<byte>)
    requires !Less(skip, t) && Less(skip, u)
    ensures Less(t, u)
  {
    LessTotal(t, skip);
    if Less(t, skip) { LessTransitive(t, skip, u); }
  }

  lemma AheadEnd(es: seq<Entry>, s: nat, skipping: bool, skip: seq<byte>, b: Bound)
    requires Ahead(es, s, |es|, skipping, skip, b)
    ensures NoneLive(es, s, b)
  {}

  lemma AheadAfter(es: seq<Entry>, s: nat, p: nat, key: seq<byte>)
    requires SortedEntries(es) && p <= |es|
    requires forall i :: 0 <= i < p ==> !Less(key, es[i].user)
    requires forall i :: p <= i < |es| && Shown(es, s, i) ==> !Less(es[i].user, key)
    ensures Ahead(es, s, p, true, key, Above(key))
  {
    LessIrreflexive(key);
    hide Less, First;
    forall k | Live(es, s, k) && Less(key, k) ensures First(es, k, s) >= p {
      assert es[First(es, k, s)].user == k;
    }
  }

  // ---------- Moving backward ----------

  /** The scan stands at `p`, everything above has been looked at. With no candidate, every live key
      in bounds is found at or below `p`; with one, taken from entry `q`, every other one is, and the
      candidate's newest entry is `q` unless a newer one follows below. */
  ghost predicate Behind(es: seq<Entry>, s: nat, p: int, q: nat, found: bool, b: Bound) {
    && -1 <= p < |es| && (b.All? || b.Below?)
    && (forall i :: 0 <= i <= p ==> In(b, es[i].user))
    && (forall k :: Live(es, s, k) && In(b, k) ==> First(es, k, s) <= p || (found && q < |es| && k == es[q].user && First(es, k, s) == q))
    && (found ==> p < q < |es| && Shown(es, s, q) && !es[q].IsDeletion() && In(b, es[q].user))
    && (found ==> forall i :: p < i < q ==> !Shown(es, s, i))
  }

  lemma BehindPass(es: seq<Entry>, s: nat, p: nat, q: nat, found: bool, b: Bound)
    requires SortedEntries(es) && p < |es| && Behind(es, s, p, q, found, b) && !Shown(es, s, p)
    ensures Behind(es, s, p - 1, q, found, b)
  {
    hide Less, First, In, SortedEntries;
    forall k | Live(es, s, k) && In(b, k)
      ensures First(es, k, s) <= p - 1 || (found && q < |es| && k == es[q].user && First(es, k, s) == q)
    {
      assert Shown(es, s, First(es, k, s));
    }
  }

  /** A visible entry that does not end the scan becomes the candidate, or clears it. */
  lemma BehindTake(es: seq<Entry>, s: nat, p: nat, q: nat, found: bool, b: Bound)
    requires SortedEntries(es) && p < |es| && Behind(es, s, p, q, found, b) && Shown(es, s, p)
    requires found ==> !Less(es[p].user, es[q].user)
    ensures Behind(es, s, p - 1, p, !es[p].IsDeletion(), b)
  {
    var u := es[p].user;
    if found { UserOrder(es, p, q); }
    hide Less, In, SortedEntries;
    forall k | Live(es, s, k) && In(b, k)
      ensures First(es, k, s) <= p - 1 || (!es[p].IsDeletion() && k == u && First(es, k, s) == p)
    {
      if k == u { FirstAtMost(es, u, s, p); }
      hide First;
    }
  }

  /** The scan ends below the candidate: it is the greatest live key in bounds. */
  lemma BehindFound(es: seq<Entry>, s: nat, p: int, q: nat, b: Bound)
    requires SortedEntries(es) && Behind(es, s, p, q, true, b)
    requires p >= 0 ==> Less(es[p].user, es[q].user)
    ensures First(es, es[q].user, s) == q && Live(es, s, es[q].user) && Greatest(es, s, b, es[q].user)
  {
    var u := es[q].user;
    forall j | 0 <= j < q ensures !Visible(es[j], u, s) {
      if j > p {
        assert !Shown(es, s, j);
      } else {
        UserOrder(es, j, p);
        LessAsymmetric(es[p].user, u);
      }
    }
    FirstIs(es, u, s, q);
    hide First;
    forall k' | Live(es, s, k') && In(b, k') ensures !Less(u, k') {
      LessIrreflexive(u);
      var f := First(es, k', s);
      if f <= p {
        UserOrder(es, f, q);
      }
    }
  }

  lemma BehindNone(es: seq<Entry>, s: nat, q: nat, b: Bound)
    requires Behind(es, s, -1, q, false, b)
    ensures NoneLive(es, s, b)
  {}

  lemma BehindBelow(es: seq<Entry>, s: nat, p: int, key: seq<byte>)
    requires SortedEntries(es) && -1 <= p < |es|
    requires p >= 0 ==> Less(es[p].user, key)
    requires forall i :: p < i < |es| && Shown(es, s, i) ==> !Less(es[i].user, key)
    ensures Behind(es, s, p, 0, false, Below(key))
  {
    forall i | 0 <= i <= p ensures Less(es[i].user, key) {
      UserOrder(es, i, p);
      if es[i].user != es[p].user { LessTransitive(es[i].user, es[p].user, key); }
    }
    hide Less, First;
    forall k | Live(es, s, k) && Less(k, key) ensures First(es, k, s) <= p {
      assert Shown(es, s, First(es, k, s));
    }
  }

  lemma BehindAll(es: seq<Entry>, s: nat)
    ensures Behind(es, s, |es| - 1, 0, false, All)
  {}

  // ---------- The iterator ----------

  datatype Direction = Forward | Reverse

  class DBIter {
    const entries: seq<Entry>
    const sequence: nat
    var pos: int               // the inner iterator; outside the sequence it is not valid
    var direction: Direction
    var valid: bool
    var savedKey: seq<byte>
    var savedValue: seq<byte>

    /** Forward, the inner iterator stands on the entry shown; in reverse it stands before all entries
        of the key shown, with nothing visible between. */
    ghost predicate Valid() reads this {
      && SortedEntries(entries) && -1 <= pos <= |entries|
      && (valid && direction == Forward ==>
            0 <= pos < |entries| && !entries[pos].IsDeletion() && First(entries, entries[pos].user, sequence) == pos)
      && (valid && direction == Reverse ==>
            && pos < |entries| && Live(entries, sequence, savedKey)
            && savedValue == entries[First(entries, savedKey, sequence)].value
            && (pos >= 0 ==> Less(entries[pos].user, savedKey))
            && (forall i :: pos < i < |entries| && Shown(entries, sequence, i) ==> !Less(entries[i].user, savedKey)))
    }

    function Key(): seq<byte>
      requires valid && (direction == Forward ==> 0 <= pos < |entries|)
      reads this
    {
      if direction == Forward then entries[pos].user else savedKey
    }

    function Value(): seq<byte>
      requires valid && (direction == Forward ==> 0 <= pos < |entries|)
      reads this
    {
      if direction == Forward then entries[pos].value else savedValue
    }

    /** What the user sees: nothing, or a live key with its newest visible value. */
    ghost predicate Shows(k: seq<byte>)
      reads this
    {
      && valid && (direction == Forward ==> 0 <= pos < |entries|)
      && Key() == k && Read(entries, k, sequence) == Present(Value())
    }

    lemma ShownValue()
      requires Valid() && valid
      ensures Shows(Key())
    {
      LiveIsPresent(entries, sequence, Key());
    }

    constructor (es: seq<Entry>, s: nat)
      requires SortedEntries(es)
      ensures Valid() && !valid && entries == es && sequence == s
    {
      entries, sequence := es, s;
      pos, direction, valid, savedKey, savedValue := -1, Forward, false, [], [];
    }

    /** Runs forward to the first visible value that is not skipped. The skip key is kept in savedKey. */
    method FindNextUserEntry(skipping: bool, ghost b: Bound)
      requires SortedEntries(entries) && direction == Forward && 0 <= pos < |entries|
      requires Ahead(entries, sequence, pos, skipping, savedKey, b)
      modifies this
      ensures Valid() && direction == Forward
      ensures if valid then Shows(Key()) && Least(entries, sequence, b, Key()) else NoneLive(entries, sequence, b)
    {
      hide Ahead, First, Live, Least, NoneLive, SortedEntries, Read;
      var skips := skipping;
      while pos < |entries|
        invariant direction == Forward && 0 <= pos <= |entries|
        invariant Ahead(entries, sequence, pos, skips, savedKey, b)
        decreases |entries| - pos
      {
        var e := entries[pos];
        if e.Ok() && e.Sequence() <= sequence {
          if e.IsDeletion() {
            AheadDelete(entries, sequence, pos, skips, savedKey, b);
            savedKey := e.user;
            skips := true;
          } else if skips && !Less(savedKey, e.user) {
            AheadPass(entries, sequence, pos, skips, savedKey, b);
          } else {
            AheadFound(entries, sequence, pos, skips, savedKey, b);
            valid := true;
            savedKey := [];
            ShownValue();
            return;
          }
        } else {
          AheadPass(entries, sequence, pos, skips, savedKey, b);
        }
        pos := pos + 1;
      }
      AheadEnd(entries, sequence, skips, savedKey, b);
      savedKey := [];
      valid := false;
    }

    /** Runs backward to the greatest live key below the inner iterator. */
    method FindPrevUserEntry(ghost b: Bound)
      requires SortedEntries(entries) && direction == Reverse && -1 <= pos < |entries|
      requires Behind(entries, sequence, pos, 0, false, b)
      modifies this
      ensures Valid()
      ensures if valid then Shows(Key()) && Greatest(entries, sequence, b, Key()) else NoneLive(entries, sequence, b)
    {
      hide Behind, First, Live, Greatest, NoneLive, SortedEntries, Read;
      var found := false;
      ghost var q: nat := 0;
      while pos >= 0
        invariant direction == Reverse && -1 <= pos < |entries|
        invariant Behind(entries, sequence, pos, q, found, b)
        invariant found ==> q < |entries| && savedKey == entries[q].user && savedValue == entries[q].value
        decreases pos
      {
        var e := entries[pos];
        if e.Ok() && e.Sequence() <= sequence {
          if found && Less(e.user, savedKey) { break; }
          BehindTake(entries, sequence, pos, q, found, b);
          found := !e.IsDeletion();
          q := pos;
          if e.IsDeletion() {
            savedKey, savedValue := [], [];
          } else {
            savedKey, savedValue := e.user, e.value;
          }
        } else {
          BehindPass(entries, sequence, pos, q, found, b);
        }
        pos := pos - 1;
      }
      if !found {
        BehindNone(entries, sequence, q, b);
        valid := false;
        savedKey, savedValue := [], [];
        direction := Forward;
      } else {
        BehindFound(entries, sequence, pos, q, b);
        BehindGap(entries, sequence, pos, q, b);
        valid := true;
        ShownValue();
      }
    }

    /** The least live key above the one shown, if there is any. */
    method Next()
      requires Valid() && valid
      modifies this
      ensures Valid()
      ensures if valid then Shows(Key()) && Least(entries, sequence, Above(old(Key())), Key())
              else NoneLive(entries, sequence, Above(old(Key())))
    {
      hide Ahead, First, Live, Least, NoneLive, Read;
      ghost var k := Key();
      if direction == Reverse {
        direction := Forward;
        pos := if pos < 0 then 0 else pos + 1;
        LiveAhead(entries, sequence, savedKey, pos);
        NotAbove(entries, pos, k);
        if pos >= |entries| { assert false; }
      } else {
        savedKey := entries[pos].user;
        NotAbove(entries, pos + 1, k);
        NotBelowFrom(entries, pos, k);
      }
      AheadAfter(entries, sequence, pos, k);
      FindNextUserEntry(true, Above(k));
    }

    /** The greatest live key below the one shown, if there is any. */
    method Prev()
      requires Valid() && valid
      modifies this
      ensures Valid()
      ensures if valid then Shows(Key()) && Greatest(entries, sequence, Below(old(Key())), Key())
              else NoneLive(entries, sequence, Below(old(Key())))
    {
      hide Behind, First, Live, Greatest, NoneLive, Read;
      ghost var k := Key();
      if direction == Forward {
        savedKey := entries[pos].user;
        NotBelowFrom(entries, pos, k);
        while true
          invariant 0 <= pos < |entries| && savedKey == k && direction == Forward
          invariant forall i :: pos <= i < |entries| ==> !Less(entries[i].user, k)
          decreases pos
        {
          pos := pos - 1;
          if pos < 0 {
            NothingBelow(entries, sequence, k);
            valid := false;
            savedKey, savedValue := [], [];
            return;
          }
          if Less(entries[pos].user, savedKey) { break; }
        }
        direction := Reverse;
      }
      BehindBelow(entries, sequence, pos, k);
      FindPrevUserEntry(Below(k));
    }

    /** The least live key at or above the target, if there is any. */
    method Seek(target: seq<byte>)
      requires Valid()
      modifies this
      ensures Valid()
      ensures if valid then Shows(Key()) && Least(entries, sequence, From(target), Key())
              else NoneLive(entries, sequence, From(target))
    {
      hide Ahead, First, Live, Least, NoneLive, Read;
      direction := Forward;
      savedValue := [];
      var seek := Entry(target, PackTag(sequence, ValueType.Value), []);
      savedKey := seek.Key();
      pos := 0;
      while pos < |entries| && Before(entries[pos], seek)
        invariant 0 <= pos <= |entries| && direction == Forward
        invariant forall i :: 0 <= i < pos ==> Before(entries[i], seek)
      {
        pos := pos + 1;
      }
      AheadSeek(entries, sequence, pos, seek, savedKey);
      if pos < |entries| {
        FindNextUserEntry(false, From(target));
      } else {
        AheadEnd(entries, sequence, false, savedKey, From(target));
        valid := false;
      }
    }

    method SeekToFirst()
      requires Valid()
      modifies this
      ensures Valid()
      ensures if valid then Shows(Key()) && Least(entries, sequence, All, Key()) else NoneLive(entries, sequence, All)
    {
      direction := Forward;
      savedValue := [];
      pos := 0;
      if pos < |entries| {
        FindNextUserEntry(false, All);
      } else {
        valid := false;
      }
    }

    method SeekToLast()
      requires Valid()
      modifies this
      ensures Valid()
      ensures if valid then Shows(Key()) && Greatest(entries, sequence, All, Key()) else NoneLive(entries, sequence, All)
    {
      direction := Reverse;
      savedValue := [];
      pos := |entries| - 1;
      BehindAll(entries, sequence);
      hide Behind;
      FindPrevUserEntry(All);
    }
  }

  lemma BehindGap(es: seq<Entry>, s: nat, p: int, q: nat, b: Bound)
    requires SortedEntries(es) && Behind(es, s, p, q, true, b)
    ensures forall i :: p < i < |es| && Shown(es, s, i) ==> !Less(es[i].user, es[q].user)
  {
    forall i | p < i < |es| && Shown(es, s, i) ensures !Less(es[i].user, es[q].user) {
      if i >= q { UserOrder(es, q, i); }
    }
  }

  lemma LiveAhead(es: seq<Entry>, s: nat, k: seq<byte>, p: nat)
    requires SortedEntries(es) && Live(es, s, k) && p <= |es| && (p > 0 ==> Less(es[p - 1].user, k))
    ensures p < |es|
  {
    if p > 0 { UserBefore(es, p - 1, First(es, k, s)); }
  }

  lemma NotAbove(es: seq<Entry>, p: nat, k: seq<byte>)
    requires SortedEntries(es) && p <= |es| && (p > 0 ==> es[p - 1].user == k || Less(es[p - 1].user, k))
    ensures forall i :: 0 <= i < p ==> !Less(k, es[i].user)
  {
    forall i | 0 <= i < p ensures !Less(k, es[i].user) {
      UserOrder(es, i, p - 1);
      if Less(k, es[i].user) {
        if es[i].user != es[p - 1].user { LessTransitive(k, es[i].user, es[p - 1].user); }
        if es[p - 1].user != k { LessAsymmetric(es[p - 1].user, k); }
      }
    }
  }

  lemma NotBelowFrom(es: seq<Entry>, p: nat, k: seq<byte>)
    requires SortedEntries(es) && p < |es| && es[p].user == k
    ensures forall i :: p <= i < |es| ==> !Less(es[i].user, k)
  {
    forall i | p <= i < |es| ensures !Less(es[i].user, k) { UserOrder(es, p, i); }
  }

  lemma NothingBelow(es: seq<Entry>, s: nat, k: seq<byte>)
    requires forall i :: 0 <= i < |es| ==> !Less(es[i].user, k)
    ensures NoneLive(es, s, Below(k))
  {}

  /** The inner seek passes exactly entries that are below the target or newer than the snapshot. */
  lemma AheadSeek(es: seq<Entry>, s: nat, p: nat, seek: Entry, skip: seq<byte>)
    requires SortedEntries(es) && p <= |es| && seek.tag == PackTag(s, ValueType.Value)
    requires forall i :: 0 <= i < p ==> Before(es[i], seek)
    requires p < |es| ==> !Before(es[p], seek)
    ensures Ahead(es, s, p, false, skip, From(seek.user))
  {
    forall i | 0 <= i < p && Shown(es, s, i) ensures Less(es[i].user, seek.user) {}
    forall i | p <= i < |es| ensures !Less(es[i].user, seek.user) {
      UserOrder(es, p, i);
      if Less(es[i].user, seek.user) && es[p].user != es[i].user { LessTransitive(es[p].user, es[i].user, seek.user); }
    }
    hide Less;
    forall k | Live(es, s, k) && In(From(seek.user), k) ensures First(es, k, s) >= p {
      assert Shown(es, s, First(es, k, s));
    }
  }

  // ---------- Whole walks ----------

  /** Going forward and back returns to the same key. */
  lemma PrevUndoesNext(es: seq<Entry>, s: nat, k: seq<byte>, after: seq<byte>, back: seq<byte>)
    requires Live(es, s, k) && Least(es, s, Above(k), after) && Greatest(es, s, Below(after), back)
    ensures back == k
  {
    hide Live, First;
    LessTotal(back, k);
    LessIrreflexive(after);
    assert Less(k, back) ==> In(Above(k), back);
    assert In(Below(after), k);
  }

  ghost predicate Ascending(ks: seq<seq<byte>>) {
    forall i, j :: 0 <= i < j < |ks| ==> Less(ks[i], ks[j])
  }

  /** Every live key up to `k` is listed, with its value. */
  ghost predicate Listed(es: seq<Entry>, s: nat, ks: seq<seq<byte>>, vs: seq<seq<byte>>) {
    && |ks| == |vs| && Ascending(ks)
    && forall i :: 0 <= i < |ks| ==> Live(es, s, ks[i]) && Read(es, ks[i], s) == Present(vs[i])
  }

  lemma ListedMore(es: seq<Entry>, s: nat, ks: seq<seq<byte>>, vs: seq<seq<byte>>, k: seq<byte>, v: seq<byte>)
    requires Listed(es, s, ks, vs) && Live(es, s, k) && Read(es, k, s) == Present(v)
    requires ks != [] ==> Less(ks[|ks| - 1], k)
    ensures Listed(es, s, ks + [k], vs + [v])
  {
    hide Live, Read;
    forall i | 0 <= i < |ks| ensures Less(ks[i], k) {
      if i < |ks| - 1 { LessTransitive(ks[i], ks[|ks| - 1], k); }
    }
  }

  lemma FirstGrows(es: seq<Entry>, s: nat, a: seq<byte>, b: seq<byte>)
    requires SortedEntries(es) && Live(es, s, a) && Live(es, s, b) && Less(a, b)
    ensures First(es, a, s) < First(es, b, s)
  {
    UserBefore(es, First(es, a, s), First(es, b, s));
  }

  /** `getAll` of the store: a walk from the first entry lists exactly the live keys, in order. */
  method GetAll(es: seq<Entry>, s: nat) returns (ks: seq<seq<byte>>, vs: seq<seq<byte>>)
    requires SortedEntries(es)
    ensures Listed(es, s, ks, vs)
    ensures forall k :: Live(es, s, k) <==> k in ks
  {
    hide Live, First, Least, NoneLive, Read, SortedEntries;
    ks, vs := [], [];
    var it := new DBIter(es, s);
    it.SeekToFirst();
    Start(es, s, it);
    while it.valid
      invariant it.Valid() && it.entries == es && it.sequence == s && fresh(it)
      invariant it.valid ==> it.Shows(it.Key()) && Live(es, s, it.Key())
      invariant Listed(es, s, ks, vs)
      invariant it.valid && ks != [] ==> Less(ks[|ks| - 1], it.Key())
      invariant forall k :: Live(es, s, k) && (it.valid ==> Less(k, it.Key())) ==> k in ks
      decreases it.valid, if it.valid then |es| - First(es, it.Key(), s) else 0
    {
      ghost var k := it.Key();
      ListedMore(es, s, ks, vs, k, it.Value());
      ks, vs := ks + [it.Key()], vs + [it.Value()];
      it.Next();
      StepListed(es, s, ks, k, it);
    }
    InList(es, s, ks, vs);
  }

  lemma InList(es: seq<Entry>, s: nat, ks: seq<seq<byte>>, vs: seq<seq<byte>>)
    requires Listed(es, s, ks, vs)
    ensures forall k :: k in ks ==> Live(es, s, k)
  {}

  lemma Start(es: seq<Entry>, s: nat, it: DBIter)
    requires it.Valid() && it.entries == es && it.sequence == s
    requires it.valid ==> it.Shows(it.Key()) && Least(es, s, All, it.Key())
    requires !it.valid ==> NoneLive(es, s, All)
    ensures it.valid ==> Live(es, s, it.Key())
    ensures forall k :: Live(es, s, k) ==> it.valid && !Less(k, it.Key())
  {
    hide Live, First;
  }

  lemma StepListed(es: seq<Entry>, s: nat, ks: seq<seq<byte>>, k: seq<byte>, it: DBIter)
    requires it.Valid() && it.entries == es && it.sequence == s && ks != [] && ks[|ks| - 1] == k && Live(es, s, k)
    requires forall k' :: Live(es, s, k') && Less(k', k) ==> k' in ks
    requires it.valid ==> it.Shows(it.Key()) && Least(es, s, Above(k), it.Key())
    requires !it.valid ==> NoneLive(es, s, Above(k))
    ensures it.valid ==> Live(es, s, it.Key()) && Less(k, it.Key()) && First(es, k, s) < First(es, it.Key(), s) <= |es|
    ensures forall k' :: Live(es, s, k') && (it.valid ==> Less(k', it.Key())) ==> k' in ks
  {
    if it.valid { FirstGrows(es, s, k, it.Key()); }
    hide Live, First;
    forall k' | Live(es, s, k') && (it.valid ==> Less(k', it.Key())) ensures k' in ks {
      LessTotal(k', k);
      assert Less(k, k') ==> In(Above(k), k');
    }
  }
}
