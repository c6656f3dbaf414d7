/** Integers in RLP (core/RLP.cpp `isInt`, core/include/core/RLP.h `toInt`): big-endian strings without leading zeros. */
module RlpInt {
  import opened Bytes
  import opened Rlp
  import opened RlpReader

  /** Whether the first payload byte allows an integer; the payload itself need not be there. */
  function IsInt(d: seq<byte>): Result<bool> {
    if d == [] then Ok(false)
    else if !Good(d) then Throw(BadRLP)
    else if d[0] < DATA_IMM_LEN_START then Ok(d[0] != 0)
    else if d[0] == DATA_IMM_LEN_START then Ok(true)
    else if d[0] < LIST_START then
      if |d| <= PayloadOffset(d) then Throw(BadRLP) else Ok(d[PayloadOffset(d)] != 0)
    else Ok(false)
  }

  /** Strict conversion to an integer type of `maxSize` bytes. */
  function ToInt(d: seq<byte>, maxSize: nat): Result<nat> {
    if !Good(d) then Throw(BadRLP)
    else
      var canonical :- IsInt(d);
      if !canonical || IsList(d) then Throw(BadCast)
      else
        var p :- Payload(d);
        if |p| > maxSize then Throw(BadCast) else Ok(FromBigEndian(p))
  }

  /** The payload of an integer has no leading zero. */
  lemma IntPayload(d: seq<byte>)
    requires CheckExact(d).Ok? && IsInt(d) == Ok(true)
    ensures IsData(d) && PayloadOffset(d) <= |d| && Payload(d) == Ok(d[PayloadOffset(d)..])
    ensures var p := d[PayloadOffset(d)..]; p == [] || p[0] != 0
  {
    StrictPayload(d);
    StrictData(d);
    hide Payload, Enc, CheckExact;
  }

  /** The encoding of a number's shortest form is an integer item with that payload. */
  lemma EncOfInt(n: nat)
    requires |BigEndian(n)| < LENGTH_LIMIT
    ensures var d := Enc(Str(BigEndian(n)));
            && CheckExact(d).Ok? && IsInt(d) == Ok(true) && IsData(d)
            && PayloadOffset(d) <= |d| && d[PayloadOffset(d)..] == BigEndian(n)
  {
    var s := BigEndian(n);
    var d := Enc(Str(s));
    DecodeEnc(Str(s));
    assert s != [] ==> s[0] != 0;
    hide BigEndian, FromBigEndian, Enc, LongLength;
    assert IsData(d) && d[PayloadOffset(d)..] == s;
  }

  /**
   * A byte string that is one item converts strictly to a number if and only if it is the
   * encoding of that number's shortest big-endian form and the number fits: every number
   * has exactly one accepted encoding.
   */
  lemma IntExact(d: seq<byte>, maxSize: nat, n: nat)
    requires CheckExact(d).Ok? && maxSize < 0x1_0000_0000
    ensures ToInt(d, maxSize) == Ok(n) <==> d == Enc(Str(BigEndian(n))) && n < Pow256(maxSize)
  {
    hide BigEndian, FromBigEndian, Payload, Enc, CheckExact, Pow256;
    BigEndianSize(n, maxSize);
    FromBigEndianInverts(n);
    if ToInt(d, maxSize) == Ok(n) {
      IntPayload(d);
      StrictData(d);
      BigEndianInverts(d[PayloadOffset(d)..]);
    }
    if d == Enc(Str(BigEndian(n))) && n < Pow256(maxSize) {
      EncOfInt(n);
      IntPayload(d);
    }
  }
}
