/** The looping and caching parts of the RLP reader (core/RLP.cpp): `length`, `items`, and
    `operator[]` with its index cache. */
module RlpReader {
  import opened Bytes
  import opened Rlp

  // ---------- Stateless walks ----------

  /** `payload()` of an item; out-of-range crops are empty. */
  function Payload(d: seq<byte>): Result<seq<byte>> {
    var n :- Length(d);
    if n > |d| then Throw(BadRLP)
    else if PayloadOffset(d) + n <= |d| then Ok(d[PayloadOffset(d)..PayloadOffset(d) + n])
    else Ok([])
  }

  /** Where item `i` of payload `p` starts; at and past the end it is `|p|`. */
  function Start(p: seq<byte>, i: nat): (r: Result<nat>)
    ensures r.Ok? ==> r.value <= |p|
  {
    if i == 0 then Ok(0)
    else
      var s :- Start(p, i - 1);
      var n :- SizeAsEncoded(p[s..]);
      Ok(s + n)
  }

  /** The bytes of item `i`, empty past the end. */
  function Nth(p: seq<byte>, i: nat): Result<seq<byte>> {
    var s :- Start(p, i);
    var n :- SizeAsEncoded(p[s..]);
    Ok(p[s..s + n])
  }

  function ItemCount(p: seq<byte>): Result<nat>
    decreases |p|
  {
    if p == [] then Ok(0)
    else
      var n :- SizeAsEncoded(p);
      var c :- ItemCount(p[n..]);
      Ok(c + 1)
  }

  /** On the encoding of a list, the walk finds each item and nothing past the last. */
  lemma {:induction false} StartOfItem(xs: seq<Item>, i: nat)
    requires |EncAll(xs)| < LENGTH_LIMIT && i <= |xs|
    ensures Start(EncAll(xs), i) == Ok(|EncAll(xs[..i])|)
    ensures EncAll(xs)[|EncAll(xs[..i])|..] == EncAll(xs[i..])
  {
    hide SizeAsEncoded, Enc, EncAll;
    EncAllAppend(xs[..i], xs[i..]);
    assert xs == xs[..i] + xs[i..];
    if i > 0 {
      StartOfItem(xs, i - 1);
      var x := xs[i - 1];
      assert xs[..i] == xs[..i - 1] + [x];
      EncAllSnoc(xs[..i - 1], x);
      EncMember(xs, i - 1);
      EncSize(x, EncAll(xs[i..]));
      EncAllHead(xs, i - 1);
    } else {
      NoneEncoded(xs);
    }
  }

  lemma NoneEncoded(xs: seq<Item>)
    ensures EncAll(xs[..0]) == []
  {
  }

  lemma NthOfList(xs: seq<Item>, i: nat)
    requires |EncAll(xs)| < LENGTH_LIMIT && i < |xs|
    ensures Nth(EncAll(xs), i) == Ok(Enc(xs[i]))
  {
    hide SizeAsEncoded, Enc, EncAll, Start;
    StartOfItem(xs, i);
    EncMember(xs, i);
    EncAllHead(xs, i);
    EncSize(xs[i], EncAll(xs[i + 1..]));
    var p, s, n := EncAll(xs), |EncAll(xs[..i])|, |Enc(xs[i])|;
    assert p[s..s + n] == p[s..][..n] == Enc(xs[i]);
  }

  lemma EncAllHead(xs: seq<Item>, i: nat)
    requires i < |xs|
    ensures EncAll(xs[i..]) == Enc(xs[i]) + EncAll(xs[i + 1..])
  {
    hide Enc;
    assert xs[i..][1..] == xs[i + 1..];
  }

  lemma {:induction false} NthPastEnd(xs: seq<Item>, i: nat)
    requires |EncAll(xs)| < LENGTH_LIMIT && i >= |xs|
    ensures Start(EncAll(xs), i) == Ok(|EncAll(xs)|)
    ensures Nth(EncAll(xs), i) == Ok([])
  {
    hide SizeAsEncoded, Enc;
    if i == |xs| {
      StartOfItem(xs, i);
      assert xs[..i] == xs;
    } else {
      NthPastEnd(xs, i - 1);
    }
    var p := EncAll(xs);
    assert p[|p|..] == p[|p|..|p|] == [];
  }

  lemma {:induction false} ItemCountOfList(xs: seq<Item>)
    requires |EncAll(xs)| < LENGTH_LIMIT
    ensures ItemCount(EncAll(xs)) == Ok(|xs|)
  {
    if xs != [] {
      var p := EncAll(xs);
      EncSize(xs[0], EncAll(xs[1..]));
      assert p[|Enc(xs[0])|..] == EncAll(xs[1..]);
      ItemCountOfList(xs[1..]);
    }
  }

  /** A walk that stops once has not moved past `|p|` before, so an index this high is past the end. */
  lemma {:induction false} StartGrows(p: seq<byte>, i: nat)
    requires Start(p, i).Ok?
    ensures Start(p, i).value == |p| || Start(p, i).value >= i
  {
    hide SizeAsEncoded;
    if i > 0 { StartGrows(p, i - 1); }
  }

  lemma {:induction false} StartMonotone(p: seq<byte>, j: nat, i: nat)
    requires j <= i && Start(p, j).Throw?
    ensures Start(p, i) == Start(p, j)
  {
    hide SizeAsEncoded;
    if j < i { StartMonotone(p, j, i - 1); }
  }

  lemma {:induction false} StaysAtEnd(p: seq<byte>, j: nat, i: nat)
    requires j <= i && Start(p, j) == Ok(|p|)
    ensures Start(p, i) == Ok(|p|) && Nth(p, i) == Ok([])
  {
    hide SizeAsEncoded;
    assert p[|p|..] == p[|p|..|p|] == [];
    if j < i { StaysAtEnd(p, j, i - 1); }
  }

  lemma StrictPayload(d: seq<byte>)
    requires CheckExact(d).Ok?
    ensures Payload(d) == Ok(if d == [] then [] else d[PayloadOffset(d)..])
  {
    if IsSingleByte(d) {
      assert d[0..1] == d[0..];
    } else if d != [] {
      var o := PayloadOffset(d);
      assert d[o..o + Length(d).value] == d[o..];
    }
  }

  /** An index larger than the payload is past the end of every payload that can be walked that far. */
  lemma HugeIndexIsPastEnd(p: seq<byte>, i: nat)
    requires |p| < i && Start(p, i).Ok?
    ensures Nth(p, i) == Ok([])
  {
    hide SizeAsEncoded;
    StartGrows(p, i);
    assert p[|p|..] == p[|p|..|p|] == [];
  }

  // ---------- length() and items() as loops ----------

  /** `RLP::length`: the length bytes are folded left to right. */
  method ReadLength(d: seq<byte>) returns (r: Result<nat>)
    ensures r == Length(d)
  {
    if d == [] { return Ok(0); }
    if !Good(d) { return Throw(BadRLP); }
    if d[0] < DATA_IMM_LEN_START { return Ok(1); }
    if d[0] <= DATA_IND_LEN_ZERO { return Ok((d[0] - DATA_IMM_LEN_START) as nat); }
    if LIST_START <= d[0] <= LIST_IND_LEN_ZERO { return Ok((d[0] - LIST_START) as nat); }
    var k := LengthSize(d);
    if |d| <= k || d[1] == 0 { return Throw(BadRLP); }
    if k > MAX_LENGTH_BYTES { return Throw(UndersizeRLP); }
    var n := 0;
    for i := 0 to k
      invariant n == FromBigEndian(d[1..1 + i])
    {
      assert d[1..2 + i][..i] == d[1..1 + i];
      n := n * 256 + d[i + 1] as nat;
    }
    if n < IMM_LEN_COUNT { return Throw(BadRLP); }
    if n >= LENGTH_LIMIT { return Throw(UndersizeRLP); }
    return Ok(n);
  }

  /** `RLP::items`: the number of items of a list, zero for anything else. */
  method Items(d: seq<byte>) returns (r: Result<nat>)
    ensures !IsList(d) ==> r == Ok(0)
    ensures IsList(d) && Payload(d).Throw? ==> r == Throw(Payload(d).error)
    ensures IsList(d) && Payload(d).Ok? ==> r == ItemCount(Payload(d).value)
  {
    if !IsList(d) { return Ok(0); }
    var p := Payload(d);
    if p.Throw? { return Throw(p.error); }
    var rest := p.value;
    var i := 0;
    while rest != []
      invariant ItemCount(p.value) == (var c := ItemCount(rest); if c.Ok? then Ok(c.value + i) else c)
      decreases |rest|
    {
      var n := SizeAsEncoded(rest);
      if n.Throw? { return Throw(n.error); }
      rest := rest[n.value..];
      i := i + 1;
    }
    return Ok(i);
  }

  // ---------- operator[] ----------

  const NO_INDEX: nat := TWO_64 - 1

  /** The cache (index, end, item) holds item `j` of `p` and the offset after it. */
  ghost predicate Cached(p: seq<byte>, j: nat, end: nat, item: seq<byte>) {
    Nth(p, j) == Ok(item) && Start(p, j + 1) == Ok(end)
  }

  /** An access threw: the cache holds everything after item `j`, which does not parse. */
  ghost predicate Stuck(p: seq<byte>, j: nat, end: nat, item: seq<byte>) {
    && Nth(p, j).Ok?
    && Start(p, j + 1) == Ok(end)
    && item == p[end..]
    && SizeAsEncoded(item).Throw?
  }

  /** Item 0 is read straight from the payload, and nothing is when it does not parse. */
  lemma FirstItem(p: seq<byte>, i: nat)
    ensures SizeAsEncoded(p).Ok? ==> Cached(p, 0, SizeAsEncoded(p).value, p[..SizeAsEncoded(p).value])
    ensures SizeAsEncoded(p).Throw? ==> Nth(p, i) == Throw(SizeAsEncoded(p).error)
  {
    hide SizeAsEncoded;
    assert p[0..] == p;
    var n := SizeAsEncoded(p);
    if n.Ok? {
      assert Start(p, 1) == Ok(n.value);
      assert p[0..n.value] == p[..n.value];
    } else if i > 0 {
      StartMonotone(p, 1, i);
    }
  }

  lemma NextItem(p: seq<byte>, j: nat, end: nat)
    requires Start(p, j + 1) == Ok(end)
    requires SizeAsEncoded(p[end..]).Ok?
    ensures var n := SizeAsEncoded(p[end..]).value; Cached(p, j + 1, end + n, p[end..][..n])
  {
    hide SizeAsEncoded;
    var n := SizeAsEncoded(p[end..]).value;
    assert Start(p, j + 2) == Ok(end + n);
    assert p[end..][..n] == p[end..end + n];
  }

  lemma BadItem(p: seq<byte>, j: nat, end: nat, i: nat)
    requires Start(p, j + 1) == Ok(end) && j < i
    requires SizeAsEncoded(p[end..]).Throw?
    ensures Nth(p, i) == Throw(SizeAsEncoded(p[end..]).error)
  {
    hide SizeAsEncoded;
    assert Start(p, j + 2) == Throw(SizeAsEncoded(p[end..]).error);
    if j + 1 < i { StartMonotone(p, j + 2, i); }
  }

  /** Once an item is empty, so is every later one; an item parses as itself. */
  lemma CachedItem(p: seq<byte>, j: nat, end: nat, item: seq<byte>, i: nat)
    requires Cached(p, j, end, item)
    ensures item == [] && j <= i ==> Nth(p, i) == Ok([])
    ensures SizeAsEncoded(item).Ok?
  {
    var s := Start(p, j).value;
    var n := SizeAsEncoded(p[s..]).value;
    assert item == p[s..s + n] == p[s..][..n];
    SizeOfPrefix(p[s..]);
    if item == [] && j <= i {
      assert s == |p|;
      StaysAtEnd(p, j, i);
    }
  }

  /** The first item of a string has the same size when the rest of the string is cut off. */
  lemma SizeOfPrefix(d: seq<byte>)
    requires SizeAsEncoded(d).Ok?
    ensures SizeAsEncoded(d[..SizeAsEncoded(d).value]) == SizeAsEncoded(d)
  {
    var n := SizeAsEncoded(d).value;
    if d != [] && !IsSingleByte(d) {
      var e := d[..n];
      assert n >= PayloadOffset(d);
      assert forall k :: 0 <= k < n ==> e[k] == d[k];
      assert LengthSize(d) > 0 ==> e[1..1 + LengthSize(d)] == d[1..1 + LengthSize(d)];
    }
  }

  lemma IndexBelowSize(p: seq<byte>, j: nat, end: nat, item: seq<byte>)
    requires Cached(p, j, end, item) && item != []
    ensures j < |p|
  {
    hide SizeAsEncoded;
    StartGrows(p, j);
  }

  /** On a well-formed list no access throws, so the exception in `Index` never arises. */
  lemma NeverStuck(xs: seq<Item>, j: nat, end: nat, item: seq<byte>)
    requires |EncAll(xs)| < LENGTH_LIMIT
    ensures !Stuck(EncAll(xs), j, end, item)
    ensures forall i: nat :: Nth(EncAll(xs), i).Ok?
  {
    hide SizeAsEncoded;
    forall i: nat ensures Nth(EncAll(xs), i).Ok? {
      if i < |xs| { NthOfList(xs, i); } else { NthPastEnd(xs, i); }
    }
    assert Nth(EncAll(xs), j + 1).Ok?;
  }

  /** A list item reader with the index cache of class RLP. */
  class Reader {
    const data: seq<byte>
    const payload: seq<byte>
    var lastIndex: nat
    var lastEnd: nat
    var lastItem: seq<byte>

    /** No access has been made. */
    ghost predicate Fresh() reads this { lastIndex == NO_INDEX && lastEnd == 0 && lastItem == [] }

    ghost predicate IsStuck() reads this {
      lastIndex < NO_INDEX && Stuck(payload, lastIndex, lastEnd, lastItem)
    }

    ghost predicate Valid() reads this {
      && Payload(data) == Ok(payload) && |payload| < NO_INDEX
      && (Fresh() || IsStuck() || (lastIndex < NO_INDEX && Cached(payload, lastIndex, lastEnd, lastItem)))
    }

    constructor (d: seq<byte>)
      requires CheckExact(d).Ok? && |d| < NO_INDEX
      ensures Valid() && Fresh() && data == d
    {
      StrictPayload(d);
      data := d;
      payload := Payload(d).value;
      lastIndex, lastEnd, lastItem := NO_INDEX, 0, [];
    }

    /** Every access agrees with the stateless walk, except that after an access threw, asking again
        for the last item before the malformed one throws too. (A first access at the largest index
        of all finds nothing.) */
    method Index(i: nat) returns (r: Result<seq<byte>>)
      requires Valid() && i < TWO_64
      modifies this
      ensures Valid()
      ensures !(old(IsStuck()) && i == old(lastIndex)) && !(old(Fresh()) && i == NO_INDEX) ==> r == Nth(payload, i)
      ensures old(IsStuck()) && i == old(lastIndex) ==> r.Throw? && Nth(payload, i).Ok?
      ensures old(Fresh()) && i == NO_INDEX ==> r == Ok([])
      ensures IsStuck() ==> r.Throw?
      ensures r.Throw? && Nth(payload, 0).Ok? ==> IsStuck()
    {
      hide SizeAsEncoded, Payload, Nth, Start;
      if i < lastIndex {
        var n := SizeAsEncoded(payload);
        FirstItem(payload, i);
        FirstItem(payload, 0);
        if n.Throw? { return Throw(n.error); }
        lastEnd := n.value;
        lastItem := payload[..lastEnd];
        lastIndex := 0;
      }
      ghost var untouched, stuck := Fresh(), i >= old(lastIndex) && old(IsStuck());
      while lastIndex < i && lastItem != []
        invariant lastIndex <= i
        invariant untouched ==> Fresh()
        invariant !untouched && !stuck ==> lastIndex < NO_INDEX && Cached(payload, lastIndex, lastEnd, lastItem)
        invariant stuck ==> IsStuck() && lastIndex == old(lastIndex)
        invariant Valid()
        decreases i - lastIndex
      {
        if !stuck && !untouched { IndexBelowSize(payload, lastIndex, lastEnd, lastItem); }
        var rest := payload[lastEnd..];
        lastItem := rest;
        var n := SizeAsEncoded(rest);
        if n.Throw? {
          BadItem(payload, lastIndex, lastEnd, i);
          return Throw(n.error);
        }
        NextItem(payload, lastIndex, lastEnd);
        lastItem := rest[..n.value];
        lastEnd := lastEnd + n.value;
        lastIndex := lastIndex + 1;
      }
      if !untouched && !stuck { CachedItem(payload, lastIndex, lastEnd, lastItem, i); }
      var n := SizeAsEncoded(lastItem);
      if n.Throw? { return Throw(n.error); }
      return Ok(lastItem);
    }
  }

  lemma StalePayload(p: seq<byte>, j: nat)
    requires |p| == 3 && p[0] == 0x01 && p[1] == 0x81 && p[2] == 0x01
    ensures Nth(p, 0) == Ok([0x01])
    ensures j > 0 ==> Nth(p, j) == Throw(BadRLP)
  {
    assert p[0..] == p && p[..1] == [0x01] && SizeAsEncoded(p) == Ok(1);
    FirstItem(p, 0);
    assert p[1..][0] == 0x81 && p[1..][1] == 0x01;
    assert SizeAsEncoded(p[1..]) == Throw(BadRLP);
    if j > 0 { BadItem(p, 0, 1, j); }
  }

  lemma StaleList(d: seq<byte>)
    requires d == [0xc3, 0x01, 0x81, 0x01]
    ensures CheckExact(d).Ok? && Payload(d) == Ok(d[1..])
  {
    StrictPayload(d);
  }

  /** The stale cache is reachable: [0x01, 0x81 0x01] is a list whose second item is malformed.
      Item 0 reads, item 1 throws, and then item 0 throws. */
  method StaleCache() returns (first: Result<seq<byte>>, second: Result<seq<byte>>, again: Result<seq<byte>>)
    ensures first == Ok([0x01]) && second == Throw(BadRLP) && again.Throw?
  {
    hide Nth, Start, SizeAsEncoded, Payload, CheckExact;
    var d: seq<byte> := [0xc3, 0x01, 0x81, 0x01];
    StaleList(d);
    var r := new Reader(d);
    first := r.Index(0);
    StalePayload(r.payload, 1);
    second := r.Index(1);
    StalePayload(r.payload, r.lastIndex);
    again := r.Index(0);
  }

  // ---------- Access to what is not a list ----------

  /** On a payload, no index finds anything if and only if the payload is empty. */
  lemma AllNullExact(p: seq<byte>)
    ensures (forall i: nat :: Nth(p, i) == Ok([])) <==> p == []
  {
    if p == [] {
      forall i: nat ensures Nth(p, i) == Ok([]) {
        StaysAtEnd(p, 0, i);
      }
    } else {
      hide SizeAsEncoded;
      assert p[0..] == p;
      assert Nth(p, 0) != Ok([]);
    }
  }

  lemma PayloadOfString(d: seq<byte>)
    requires CheckExact(d).Ok? && !IsList(d)
    ensures Payload(d).Ok? && |Payload(d).value| < LENGTH_LIMIT
    ensures Payload(d).value == [] <==> d == [] || d == [DATA_IMM_LEN_START]
  {
    hide BigEndian, FromBigEndian;
    StrictPayload(d);
    if d != [] {
      StrictData(d);
      assert d != [DATA_IMM_LEN_START] ==> |d| > 1 || d[0] != DATA_IMM_LEN_START;
    }
  }

  /**
   * The access does not ask whether it is made on a list.  On a strict item that is none,
   * every index yields the null item if and only if the item is null or the empty string.
   */
  lemma StringAccessExact(d: seq<byte>)
    requires CheckExact(d).Ok? && !IsList(d)
    ensures Payload(d).Ok?
    ensures (forall i: nat :: Nth(Payload(d).value, i) == Ok([])) <==> d == [] || d == [DATA_IMM_LEN_START]
  {
    hide CheckExact, Payload, Nth;
    PayloadOfString(d);
    AllNullExact(Payload(d).value);
  }

  function ListOf(p: seq<byte>): seq<byte> {
    Header(|p|, LIST_START) + p
  }

  /** Otherwise it yields, at every index, what it yields on the list with the same payload. */
  lemma StringReadAsList(d: seq<byte>)
    requires CheckExact(d).Ok? && !IsList(d)
    ensures Payload(d).Ok?
    ensures var l := ListOf(Payload(d).value); IsList(l) && CheckExact(l).Ok? && Payload(l) == Payload(d)
  {
    hide BigEndian, FromBigEndian, Header;
    PayloadOfString(d);
    var p := Payload(d).value;
    HeaderLength(|p|, LIST_START, p);
    var l := ListOf(p);
    assert CheckExact(l).Ok?;
    StrictPayload(l);
  }

  lemma StringOfThree(d: seq<byte>)
    requires d == [0x83, 0x01, 0x02, 0x03]
    ensures CheckExact(d).Ok? && !IsList(d) && Payload(d) == Ok(d[1..]) && Nth(d[1..], 0) == Ok([0x01])
  {
    StrictPayload(d);
    var p := d[1..];
    assert p[0] == 0x01 && p[0..] == p && p[..1] == [0x01] && SizeAsEncoded(p) == Ok(1);
    FirstItem(p, 0);
  }

  /** A string of three bytes has an item 0, its first byte. */
  method StringAccess() returns (first: Result<seq<byte>>)
    ensures first == Ok([0x01])
  {
    hide Nth, Start, SizeAsEncoded, Payload, CheckExact;
    var d: seq<byte> := [0x83, 0x01, 0x02, 0x03];
    StringOfThree(d);
    var r := new Reader(d);
    first := r.Index(0);
  }
}
