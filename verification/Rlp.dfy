/** Recursive Linear Prefix: the encoding as a function of an item tree, the strict reader as a
    function of bytes (core/RLP.cpp), and the proof that the two are inverse. */
module Rlp {
  import opened Bytes

  datatype Item = Str(bytes: seq<byte>) | List(items: seq<Item>)

  datatype Error = BadRLP | UndersizeRLP | OversizeRLP | BadCast

  datatype Result<+T> = Ok(value: T) | Throw(error: Error) {
    predicate IsFailure() { Throw? }
    function PropagateFailure<U>(): Result<U> requires Throw? { Throw(error) }
    function Extract(): T requires Ok? { value }
  }

  const DATA_IMM_LEN_START: byte := 0x80
  const LIST_START: byte := 0xc0
  const MAX_LENGTH_BYTES := 8
  const IMM_LEN_COUNT := 56
  const DATA_IND_LEN_ZERO: byte := 0xb7
  const LIST_IND_LEN_ZERO: byte := 0xf7
  /** Lengths from here on cannot have the payload offset added without overflow. */
  const LENGTH_LIMIT: nat := TWO_64 - 1 - 0x100

  // ---------- The encoding ----------

  /** The header of a payload of `len` bytes; `start` is 0x80 for strings and 0xc0 for lists. */
  function Header(len: nat, start: byte): (h: seq<byte>)
    ensures |h| >= 1
  {
    if len < IMM_LEN_COUNT then [((start as nat + len) % 256) as byte]
    else [((start as nat + IMM_LEN_COUNT - 1 + |BigEndian(len)|) % 256) as byte] + BigEndian(len)
  }

  function Enc(x: Item): (d: seq<byte>)
    ensures |d| >= 1
  {
    match x
    case Str(s) => if |s| == 1 && s[0] < DATA_IMM_LEN_START then s else Header(|s|, DATA_IMM_LEN_START) + s
    case List(xs) => Header(|EncAll(xs)|, LIST_START) + EncAll(xs)
  }

  function EncAll(xs: seq<Item>): seq<byte> {
    if xs == [] then [] else Enc(xs[0]) + EncAll(xs[1..])
  }

  function PayloadOf(x: Item): seq<byte> {
    match x
    case Str(s) => s
    case List(xs) => EncAll(xs)
  }

  lemma {:induction false} EncAllAppend(xs: seq<Item>, ys: seq<Item>)
    ensures EncAll(xs + ys) == EncAll(xs) + EncAll(ys)
  {
    if xs == [] {
      assert xs + ys == ys;
    } else {
      assert (xs + ys)[1..] == xs[1..] + ys;
      EncAllAppend(xs[1..], ys);
    }
  }

  lemma EncAllSnoc(xs: seq<Item>, x: Item)
    ensures EncAll(xs + [x]) == EncAll(xs) + Enc(x)
  {
    EncAllAppend(xs, [x]);
    assert EncAll([x]) == Enc(x);
  }

  // ---------- The strict reader ----------

  predicate IsList(d: seq<byte>) { d != [] && d[0] >= LIST_START }

  predicate IsData(d: seq<byte>) { d != [] && d[0] < LIST_START }

  predicate IsSingleByte(d: seq<byte>) { d != [] && d[0] < DATA_IMM_LEN_START }

  /** Bytes used to encode the length of the payload. */
  function LengthSize(d: seq<byte>): nat {
    if IsData(d) && d[0] > DATA_IND_LEN_ZERO then (d[0] - DATA_IND_LEN_ZERO) as nat
    else if IsList(d) && d[0] > LIST_IND_LEN_ZERO then (d[0] - LIST_IND_LEN_ZERO) as nat
    else 0
  }

  function PayloadOffset(d: seq<byte>): nat {
    if IsSingleByte(d) then 0 else 1 + LengthSize(d)
  }

  /** A single byte below 0x80 must not be written in two bytes. */
  predicate Good(d: seq<byte>) {
    d != [] && (d[0] == DATA_IMM_LEN_START + 1 ==> |d| >= 2 && d[1] >= DATA_IMM_LEN_START)
  }

  /** The length written in the `LengthSize` bytes after the first. */
  function LongLength(d: seq<byte>): Result<nat>
    requires LengthSize(d) > 0
  {
    if |d| <= LengthSize(d) || d[1] == 0 then Throw(BadRLP)
    else if LengthSize(d) > MAX_LENGTH_BYTES then Throw(UndersizeRLP)
    else
      var n := FromBigEndian(d[1..1 + LengthSize(d)]);
      if n < IMM_LEN_COUNT then Throw(BadRLP)
      else if n >= LENGTH_LIMIT then Throw(UndersizeRLP)
      else Ok(n)
  }

  /** The payload size as the header states it. */
  function Length(d: seq<byte>): Result<nat> {
    if d == [] then Ok(0)
    else if !Good(d) then Throw(BadRLP)
    else if d[0] < DATA_IMM_LEN_START then Ok(1)
    else if d[0] <= DATA_IND_LEN_ZERO then Ok((d[0] - DATA_IMM_LEN_START) as nat)
    else if LIST_START <= d[0] <= LIST_IND_LEN_ZERO then Ok((d[0] - LIST_START) as nat)
    else LongLength(d)
  }

  function ActualSize(d: seq<byte>): Result<nat> {
    if d == [] then Ok(0)
    else if IsSingleByte(d) then Ok(1)
    else var n :- Length(d); Ok(PayloadOffset(d) + n)
  }

  /** The size of the first item of `d`, which must lie wholly inside `d`. */
  function SizeAsEncoded(d: seq<byte>): (r: Result<nat>)
    ensures r.Ok? ==> r.value <= |d| && (d != [] ==> r.value > 0)
    ensures d == [] ==> r == Ok(0)
  {
    var n :- ActualSize(d);
    if n > |d| then Throw(UndersizeRLP) else Ok(n)
  }

  /** Construction with `VeryStrict`: the bytes are exactly one item. */
  function CheckExact(d: seq<byte>): (r: Result<()>) {
    var n :- ActualSize(d);
    if n < |d| then Throw(OversizeRLP) else if n > |d| then Throw(UndersizeRLP) else Ok(())
  }

  /** Reads one item, strictly at every level. */
  function Decode(d: seq<byte>): (r: Result<Item>)
    decreases |d|, 0
  {
    var _ :- CheckExact(d);
    if d == [] then Throw(BadCast)
    else if IsData(d) then Ok(Str(d[PayloadOffset(d)..]))
    else
      var xs :- DecodeAll(d[PayloadOffset(d)..]);
      Ok(List(xs))
  }

  /** Walks a list payload item by item. */
  function DecodeAll(p: seq<byte>): (r: Result<seq<Item>>)
    decreases |p|, 1
  {
    if p == [] then Ok([])
    else
      var n :- SizeAsEncoded(p);
      var x :- Decode(p[..n]);
      var xs :- DecodeAll(p[n..]);
      Ok([x] + xs)
  }

  // ---------- Headers are self-delimiting ----------

  ghost predicate ReadsLength(d: seq<byte>, offset: nat, len: nat, start: byte) {
    && PayloadOffset(d) == offset
    && Length(d) == (if len < LENGTH_LIMIT then Ok(len) else Throw(UndersizeRLP))
    && !IsSingleByte(d)
    && (IsList(d) <==> start == LIST_START)
  }

  lemma LongHeaderLength(d: seq<byte>, len: nat, start: byte)
    requires start == DATA_IMM_LEN_START || start == LIST_START
    requires IMM_LEN_COUNT <= len < TWO_64
    requires 0 < |BigEndian(len)| <= 8 && |d| > |BigEndian(len)|
    requires d[0] as nat == start as nat + 55 + |BigEndian(len)| && d[1..1 + |BigEndian(len)|] == BigEndian(len)
    ensures ReadsLength(d, 1 + |BigEndian(len)|, len, start)
  {
    hide BigEndian, FromBigEndian;
    var be := BigEndian(len);
    FromBigEndianInverts(len);
    assert LengthSize(d) == |be|;
    assert d[1] == d[1..1 + |be|][0];
    assert Length(d) == LongLength(d);
  }

  /** A header followed by anything reads back as the length it was made for. */
  lemma HeaderLength(len: nat, start: byte, rest: seq<byte>)
    requires start == DATA_IMM_LEN_START || start == LIST_START
    requires len < TWO_64
    requires start == DATA_IMM_LEN_START && len == 1 ==> rest != [] && rest[0] >= DATA_IMM_LEN_START
    ensures ReadsLength(Header(len, start) + rest, |Header(len, start)|, len, start)
  {
    var d := Header(len, start) + rest;
    if len >= IMM_LEN_COUNT {
      BigEndianSize64(len);
      assert d[1..1 + |BigEndian(len)|] == BigEndian(len);
      LongHeaderLength(d, len, start);
    } else {
      assert d[0] as nat == start as nat + len;
      assert rest != [] ==> d[1] == rest[0];
    }
  }

  /** The first item of `Enc(x) + rest` is `x`'s encoding: its size needs nothing of `rest`. */
  lemma EncSize(x: Item, rest: seq<byte>)
    requires |PayloadOf(x)| < LENGTH_LIMIT
    ensures ActualSize(Enc(x) + rest) == Ok(|Enc(x)|)
    ensures SizeAsEncoded(Enc(x) + rest) == Ok(|Enc(x)|)
  {
    if !(x.Str? && |x.bytes| == 1 && x.bytes[0] < DATA_IMM_LEN_START) {
      var start := if x.Str? then DATA_IMM_LEN_START else LIST_START;
      var p := PayloadOf(x);
      HeaderLength(|p|, start, p + rest);
      assert Enc(x) + rest == Header(|p|, start) + (p + rest);
    }
  }

  lemma {:induction false} EncMember(xs: seq<Item>, i: nat)
    requires i < |xs|
    ensures |PayloadOf(xs[i])| <= |Enc(xs[i])| <= |EncAll(xs)|
  {
    if i > 0 { EncMember(xs[1..], i - 1); }
  }

  // ---------- Decoding inverts encoding ----------

  lemma {:induction false} DecodeEnc(x: Item)
    requires |PayloadOf(x)| < LENGTH_LIMIT
    ensures Decode(Enc(x)) == Ok(x)
    decreases x, 1
  {
    var d := Enc(x);
    EncSize(x, []);
    assert d + [] == d;
    var p := PayloadOf(x);
    if x.Str? && |p| == 1 && p[0] < DATA_IMM_LEN_START {
      assert d[0..] == p;
    } else {
      var start := if x.Str? then DATA_IMM_LEN_START else LIST_START;
      HeaderLength(|p|, start, p);
      assert d[PayloadOffset(d)..] == p;
      if x.List? { DecodeEncAll(x.items); }
    }
  }

  lemma {:induction false} DecodeEncAll(xs: seq<Item>)
    requires |EncAll(xs)| < LENGTH_LIMIT
    ensures DecodeAll(EncAll(xs)) == Ok(xs)
    decreases xs, 0
  {
    if xs != [] {
      var p := EncAll(xs);
      var n := |Enc(xs[0])|;
      assert |PayloadOf(xs[0])| <= n;
      EncSize(xs[0], EncAll(xs[1..]));
      assert p[..n] == Enc(xs[0]) && p[n..] == EncAll(xs[1..]);
      DecodeEnc(xs[0]);
      DecodeEncAll(xs[1..]);
      assert xs == [xs[0]] + xs[1..];
    }
  }

  // ---------- Encoding inverts decoding ----------

  lemma LongLengthCanonical(d: seq<byte>)
    requires LengthSize(d) > 0 && LongLength(d).Ok?
    ensures |d| > LengthSize(d)
    ensures IMM_LEN_COUNT <= LongLength(d).value < LENGTH_LIMIT
    ensures BigEndian(LongLength(d).value) == d[1..1 + LengthSize(d)]
  {
    BigEndianInverts(d[1..1 + LengthSize(d)]);
  }

  /** A strict header is the header the encoder writes for the payload that follows it. */
  lemma StrictHeader(d: seq<byte>)
    requires CheckExact(d).Ok? && d != [] && !IsSingleByte(d)
    ensures PayloadOffset(d) <= |d|
    ensures d == Header(|d| - PayloadOffset(d), if IsData(d) then DATA_IMM_LEN_START else LIST_START) + d[PayloadOffset(d)..]
    ensures |d| - PayloadOffset(d) < LENGTH_LIMIT
  {
    hide BigEndian, FromBigEndian;
    var k := LengthSize(d);
    if k > 0 {
      assert Length(d) == LongLength(d);
      LongLengthCanonical(d);
      assert d == [d[0]] + d[1..1 + k] + d[1 + k..];
    } else {
      assert d == [d[0]] + d[1..];
    }
  }

  /** A strict string item is what the encoder writes for its payload. */
  lemma StrictData(d: seq<byte>)
    requires CheckExact(d).Ok? && IsData(d)
    ensures PayloadOffset(d) <= |d|
    ensures Enc(Str(d[PayloadOffset(d)..])) == d
    ensures |d| - PayloadOffset(d) < LENGTH_LIMIT
  {
    hide BigEndian, FromBigEndian;
    var p := if PayloadOffset(d) <= |d| then d[PayloadOffset(d)..] else [];
    if IsSingleByte(d) {
      assert p == d;
    } else {
      StrictHeader(d);
      assert |p| == 1 ==> d[1] == p[0];
    }
  }

  lemma {:induction false} EncDecode(d: seq<byte>)
    requires Decode(d).Ok?
    ensures Enc(Decode(d).value) == d
    ensures |PayloadOf(Decode(d).value)| < LENGTH_LIMIT
    decreases |d|, 0
  {
    hide Header, CheckExact, PayloadOffset;
    if IsData(d) {
      StrictData(d);
    } else {
      StrictHeader(d);
      EncDecodeAll(d[PayloadOffset(d)..]);
    }
  }

  lemma {:induction false} EncDecodeAll(p: seq<byte>)
    requires DecodeAll(p).Ok?
    ensures EncAll(DecodeAll(p).value) == p
    decreases |p|, 1
  {
    hide Decode, SizeAsEncoded, Enc;
    if p != [] {
      var n := SizeAsEncoded(p).value;
      EncDecode(p[..n]);
      EncDecodeAll(p[n..]);
      var x, xs := Decode(p[..n]).value, DecodeAll(p[n..]).value;
      assert ([x] + xs)[1..] == xs;
      assert p == p[..n] + p[n..];
    }
  }

  // ---------- The bijection ----------

  /** An encoding reads back as the tree it came from exactly when its payload is below the limit. */
  lemma RoundTrip(x: Item)
    requires |PayloadOf(x)| < TWO_64
    ensures Decode(Enc(x)) == Ok(x) <==> |PayloadOf(x)| < LENGTH_LIMIT
  {
    if |PayloadOf(x)| < LENGTH_LIMIT {
      DecodeEnc(x);
    } else {
      HeaderLength(|PayloadOf(x)|, if x.Str? then DATA_IMM_LEN_START else LIST_START, PayloadOf(x));
    }
  }

  /** Strictly decodable byte strings and their trees correspond one to one. */
  lemma Canonical(d: seq<byte>, x: Item)
    ensures Decode(d) == Ok(x) <==> Enc(x) == d && |PayloadOf(x)| < LENGTH_LIMIT
  {
    if Decode(d) == Ok(x) { EncDecode(d); }
    if Enc(x) == d && |PayloadOf(x)| < LENGTH_LIMIT { DecodeEnc(x); }
  }

  /** No encoding is a proper prefix of another, so two encodings that start a string are the same. */
  lemma PrefixFree(x: Item, r: seq<byte>, y: Item, t: seq<byte>)
    requires |PayloadOf(x)| < LENGTH_LIMIT && |PayloadOf(y)| < LENGTH_LIMIT
    requires Enc(x) + r == Enc(y) + t
    ensures x == y && r == t
  {
    EncSize(x, r);
    EncSize(y, t);
    var d := Enc(x) + r;
    assert d[..|Enc(x)|] == Enc(x) && d[..|Enc(y)|] == Enc(y);
    assert d[|Enc(x)|..] == r && d[|Enc(y)|..] == t;
    DecodeEnc(x);
    DecodeEnc(y);
  }
}
