/** Internal keys of LevelDB (database/leveldb/db/dbformat.h, dbformat.cc): a user key followed by a
    64-bit tag that packs sequence number and type, and the order the database keeps them in. */
module DbFormat {
  import opened Bytes
  import opened Lex

  const MAX_SEQUENCE: nat := 0xff_ffff_ffff_ffff

  datatype ValueType = Deletion | Value

  datatype ParsedKey = ParsedKey(user: seq<byte>, sequence: nat, kind: ValueType)

  /** `PackSequenceAndType`. */
  function PackTag(sequence: nat, kind: ValueType): nat {
    sequence * 256 + (if kind.Value? then 1 else 0)
  }

  /** `AppendInternalKey` to an empty string. */
  function Append(k: ParsedKey): seq<byte> { k.user + LittleEndian(PackTag(k.sequence, k.kind), 8) }

  /** `DecodeFixed64` of the last eight bytes. */
  function TagOf(key: seq<byte>): nat
    requires |key| >= 8
  {
    FromLittleEndian(key[|key| - 8..])
  }

  /** `ParseInternalKey`; a key that is too short or has an unknown type is refused. */
  function Parse(key: seq<byte>): Option<ParsedKey> {
    if |key| < 8 || TagOf(key) % 256 > 1 then None
    else Some(ParsedKey(key[..|key| - 8], TagOf(key) / 256, if TagOf(key) % 256 == 1 then Value else Deletion))
  }

  /** Parsing accepts exactly the keys that appending makes. */
  lemma ParseExact(key: seq<byte>, k: ParsedKey)
    ensures Parse(key) == Some(k) <==> key == Append(k) && k.sequence <= MAX_SEQUENCE
  {
    Pow256Of8();
    if Parse(key) == Some(k) {
      LittleEndianInverts(key[|key| - 8..]);
      assert key == key[..|key| - 8] + key[|key| - 8..];
    }
    if key == Append(k) && k.sequence <= MAX_SEQUENCE {
      var tag := PackTag(k.sequence, k.kind);
      assert key[|key| - 8..] == LittleEndian(tag, 8) && key[..|key| - 8] == k.user;
      FromLittleEndianInverts(tag, 8);
    }
  }

  /** A database entry: the internal key already split into user key and tag. */
  datatype Entry = Entry(user: seq<byte>, tag: nat, value: seq<byte>) {
    /** Does the key parse? */
    predicate Ok() { tag % 256 <= 1 }
    function Sequence(): nat { tag / 256 }
    predicate IsDeletion() { tag % 256 == 0 }
    function Key(): seq<byte> { user + LittleEndian(tag, 8) }
  }

  /** Increasing user key, then decreasing tag. */
  predicate Before(a: Entry, b: Entry) {
    Less(a.user, b.user) || (a.user == b.user && a.tag > b.tag)
  }

  /** `InternalKeyComparator::Compare` on the stored bytes: negative, zero or positive. */
  function Compare(a: seq<byte>, b: seq<byte>): int
    requires |a| >= 8 && |b| >= 8
  {
    var ua, ub := a[..|a| - 8], b[..|b| - 8];
    if Less(ua, ub) then -1 else if Less(ub, ua) then 1
    else if TagOf(a) > TagOf(b) then -1 else if TagOf(a) < TagOf(b) then 1 else 0
  }

  lemma TagOfEntry(e: Entry)
    requires e.tag < TWO_64
    ensures |e.Key()| == |e.user| + 8 && e.Key()[..|e.user|] == e.user && TagOf(e.Key()) == e.tag
  {
    Pow256Of8();
    FromLittleEndianInverts(e.tag, 8);
    hide LittleEndian, FromLittleEndian;
    assert e.Key()[|e.Key()| - 8..] == LittleEndian(e.tag, 8);
  }

  /** The byte-level comparator is the entry order. */
  lemma CompareMatches(a: Entry, b: Entry)
    requires a.tag < TWO_64 && b.tag < TWO_64
    ensures |a.Key()| >= 8 && |b.Key()| >= 8
    ensures Compare(a.Key(), b.Key()) < 0 <==> Before(a, b)
    ensures Compare(a.Key(), b.Key()) == 0 <==> a.user == b.user && a.tag == b.tag
  {
    TagOfEntry(a);
    TagOfEntry(b);
    hide LittleEndian, FromLittleEndian, Less, TagOf;
    LessTotal(a.user, b.user);
    LessIrreflexive(a.user);
    if Less(a.user, b.user) { LessAsymmetric(a.user, b.user); }
  }

  lemma ParseOfEntry(e: Entry)
    requires e.tag < TWO_64
    ensures Parse(e.Key()) == if e.Ok() then Some(ParsedKey(e.user, e.Sequence(), if e.IsDeletion() then Deletion else Value)) else None
  {
    Pow256Of8();
    FromLittleEndianInverts(e.tag, 8);
    assert e.Key()[|e.Key()| - 8..] == LittleEndian(e.tag, 8) && e.Key()[..|e.Key()| - 8] == e.user;
  }

  ghost predicate SortedEntries(es: seq<Entry>) {
    forall i, j :: 0 <= i < j < |es| ==> Before(es[i], es[j])
  }

  // ---------- Reading ----------

  /** What one sorted run says about a key. */
  datatype Answer = Absent | Deleted | Present(value: seq<byte>)

  predicate Visible(e: Entry, k: seq<byte>, s: nat) { e.Ok() && e.user == k && e.Sequence() <= s }

  function AnswerOf(e: Entry): Answer { if e.IsDeletion() then Deleted else Present(e.value) }

  /** The newest entry for `k` at or below `s`: the first one in the order. Keys that do not parse are
      passed over. */
  function Read(es: seq<Entry>, k: seq<byte>, s: nat): Answer {
    if es == [] then Absent
    else if Visible(es[0], k, s) then AnswerOf(es[0])
    else Read(es[1..], k, s)
  }

  /** Runs are asked from the newest to the oldest; the first answer stands. */
  function ReadAll(runs: seq<seq<Entry>>, k: seq<byte>, s: nat): Answer {
    if runs == [] then Absent
    else if Read(runs[0], k, s) != Absent then Read(runs[0], k, s)
    else ReadAll(runs[1..], k, s)
  }

  /** What the caller of Get sees. */
  function Get(runs: seq<seq<Entry>>, k: seq<byte>, s: nat): Option<seq<byte>> {
    match ReadAll(runs, k, s)
    case Present(v) => Some(v)
    case _ => None
  }
}
