/** The streaming writer `RLPStream` (core/RLP.cpp, core/include/core/RLP.h): a byte buffer and a
    stack of open lists whose headers are written only when their last item arrives. */
module RlpStream {
  import opened Bytes
  import opened Rlp

  // ---------- What the stream stands for ----------

  /** An open list: the items it has and the number it still waits for. */
  datatype Frame = Frame(items: seq<Item>, missing: nat)

  /** Finished top-level items, then the open lists, innermost last. */
  datatype Content = Content(done: seq<Item>, open: seq<Frame>)

  /** Adds one finished item; a list that becomes full is itself one finished item of the list below. */
  function Put(c: Content, x: Item): Content
    decreases |c.open|
  {
    if c.open == [] then c.(done := c.done + [x])
    else
      var k := |c.open| - 1;
      var top := c.open[k];
      var items := top.items + [x];
      if top.missing > 1 then c.(open := c.open[..k] + [Frame(items, top.missing - 1)])
      else Put(c.(open := c.open[..k]), List(items))
  }

  /** Adds several items at once, as raw appends may; a list that misses fewer refuses them. */
  function PutAll(c: Content, xs: seq<Item>): Option<Content> {
    if xs == [] then Some(c)
    else if c.open == [] then Some(c.(done := c.done + xs))
    else
      var k := |c.open| - 1;
      var top := c.open[k];
      if top.missing < |xs| then None
      else if top.missing > |xs| then Some(c.(open := c.open[..k] + [Frame(top.items + xs, top.missing - |xs|)]))
      else Some(Put(c.(open := c.open[..k]), List(top.items + xs)))
  }

  /** The bytes held for open lists: their items without headers. */
  function Pending(open: seq<Frame>): seq<byte> {
    if open == [] then [] else Pending(open[..|open| - 1]) + EncAll(open[|open| - 1].items)
  }

  function Written(c: Content): seq<byte> { EncAll(c.done) + Pending(c.open) }

  /** Each stack entry holds the number of missing items and the buffer size when its list was opened. */
  ghost predicate StackMatches(done: seq<Item>, open: seq<Frame>, stack: seq<(nat, nat)>) {
    && |stack| == |open|
    && forall j :: 0 <= j < |open| ==>
        stack[j] == (open[j].missing, |EncAll(done)| + |Pending(open[..j])|) && open[j].missing > 0
  }

  // ---------- Streaming an item tree ----------

  /** The calls for a tree: a string is appended, a list is announced and then its items follow. */
  function Emit(c: Content, x: Item): Content
    decreases x, 1
  {
    match x
    case Str(_) => Put(c, x)
    case List(xs) => if xs == [] then Put(c, x) else EmitAll(Announce(c, |xs|), xs)
  }

  function EmitAll(c: Content, xs: seq<Item>): Content
    decreases xs, 0
  {
    if xs == [] then c else EmitAll(Emit(c, xs[0]), xs[1..])
  }

  /** `appendList(n)` for n > 0. */
  function Announce(c: Content, n: nat): Content { c.(open := c.open + [Frame([], n)]) }

  /** Bytes that streaming a tree can add, counting nine for every header. */
  function Budget(x: Item): nat {
    match x
    case Str(s) => |s| + 9
    case List(xs) => 9 + BudgetAll(xs)
  }

  function BudgetAll(xs: seq<Item>): nat {
    if xs == [] then 0 else Budget(xs[0]) + BudgetAll(xs[1..])
  }

  function Trimmed(s: seq<byte>): (t: seq<byte>)
    ensures |t| <= |s| && s[|s| - |t|..] == t && (t != [] ==> t[0] != 0)
    ensures forall i :: 0 <= i < |s| - |t| ==> s[i] == 0
  {
    if s == [] || s[0] != 0 then s else Trimmed(s[1..])
  }

  /** At every depth, streaming a tree has the effect of one finished item. */
  lemma {:induction false} EmitIsPut(c: Content, x: Item)
    ensures Emit(c, x) == Put(c, x)
    decreases x, 1
  {
    if x.List? && x.items != [] {
      var announced := Announce(c, |x.items|);
      EmitAllFills(announced, x.items);
      assert announced.open[..|c.open|] == c.open;
      assert [] + x.items == x.items;
    }
  }

  /** Streaming the items that an open list still misses closes it. */
  lemma {:induction false} EmitAllFills(c: Content, xs: seq<Item>)
    requires c.open != [] && xs != [] && c.open[|c.open| - 1].missing == |xs|
    ensures var k := |c.open| - 1;
            EmitAll(c, xs) == Put(c.(open := c.open[..k]), List(c.open[k].items + xs))
    decreases xs, 0
  {
    var k := |c.open| - 1;
    var top := c.open[k];
    EmitIsPut(c, xs[0]);
    assert xs == [xs[0]] + xs[1..];
    if |xs| > 1 {
      var c' := Put(c, xs[0]);
      EmitAllFills(c', xs[1..]);
      assert c'.open[..k] == c.open[..k];
      assert top.items + [xs[0]] + xs[1..] == top.items + xs;
    } else {
      assert xs == [xs[0]] && xs[1..] == [];
    }
  }

  // ---------- How finishing an item changes the bytes ----------

  lemma PendingSnoc(open: seq<Frame>, f: Frame)
    ensures Pending(open + [f]) == Pending(open) + EncAll(f.items)
  {
    hide EncAll;
    assert (open + [f])[..|open|] == open;
  }

  lemma PendingNone(open: seq<Frame>)
    requires open == []
    ensures Pending(open) == []
  {}

  lemma PendingLast(open: seq<Frame>)
    requires open != []
    ensures Pending(open) == Pending(open[..|open| - 1]) + EncAll(open[|open| - 1].items)
  {
    hide EncAll;
  }

  lemma PendingReplaceTop(open: seq<Frame>, xs: seq<Item>, f: Frame)
    requires open != [] && f.items == open[|open| - 1].items + xs
    ensures Pending(open[..|open| - 1] + [f]) == Pending(open) + EncAll(xs)
  {
    hide *;
    var k := |open| - 1;
    EncAllAppend(open[k].items, xs);
    PendingSnoc(open[..k], f);
    PendingLast(open);
    var a, b, c := Pending(open[..k]), EncAll(open[k].items), EncAll(xs);
    assert a + (b + c) == a + b + c;
  }

  lemma WrittenTop(done: seq<Item>, xs: seq<Item>)
    ensures Written(Content(done + xs, [])) == Written(Content(done, [])) + EncAll(xs)
  {
    hide EncAll, Pending;
    EncAllAppend(done, xs);
    PendingNone([]);
  }

  lemma WrittenNested(c: Content, xs: seq<Item>, f: Frame)
    requires c.open != [] && f.items == c.open[|c.open| - 1].items + xs
    ensures Written(c.(open := c.open[..|c.open| - 1] + [f])) == Written(c) + EncAll(xs)
  {
    hide EncAll, Pending;
    PendingReplaceTop(c.open, xs, f);
    Concat3(EncAll(c.done), Pending(c.open), EncAll(xs));
  }

  /** Top-level items only add their encodings. */
  lemma PutTop(c: Content, xs: seq<Item>)
    requires c.open == []
    ensures PutAll(c, xs) == Some(Content(c.done + xs, []))
    ensures Written(PutAll(c, xs).value) == Written(c) + EncAll(xs)
  {
    hide EncAll, Put, Pending, Written;
    WrittenTop(c.done, xs);
    assert c == Content(c.done, []);
    assert xs == [] ==> c.done + xs == c.done;
  }

  lemma PutNestedIs(c: Content, xs: seq<Item>)
    requires xs != [] && c.open != [] && c.open[|c.open| - 1].missing > |xs|
    ensures var k := |c.open| - 1;
            PutAll(c, xs) == Some(c.(open := c.open[..k] + [Frame(c.open[k].items + xs, c.open[k].missing - |xs|)]))
  {
    hide Put;
  }

  /** So do items that leave their list open. */
  lemma PutNested(c: Content, xs: seq<Item>)
    requires xs != [] && c.open != [] && c.open[|c.open| - 1].missing > |xs|
    ensures PutAll(c, xs).Some? && Written(PutAll(c, xs).value) == Written(c) + EncAll(xs)
  {
    hide *;
    var k := |c.open| - 1;
    PutNestedIs(c, xs);
    WrittenNested(c, xs, Frame(c.open[k].items + xs, c.open[k].missing - |xs|));
  }

  /** Items that fill their list: inserting the header where the list was opened leaves one item more
      for the list below. */
  lemma PutCloses(c: Content, xs: seq<Item>)
    requires c.open != [] && c.open[|c.open| - 1].missing == |xs| > 0
    requires |c.open| > 1 ==> c.open[|c.open| - 2].missing > 0
    ensures var k := |c.open| - 1; PutAll(c, xs) == PutAll(c.(open := c.open[..k]), [List(c.open[k].items + xs)])
  {
    hide EncAll, Pending, Written;
  }

  lemma CloseInserts(c: Content, xs: seq<Item>)
    requires c.open != []
    ensures var k := |c.open| - 1;
            var payload := EncAll(c.open[k].items + xs);
            && Written(c) + EncAll(xs) == Written(c.(open := c.open[..k])) + payload
            && EncAll([List(c.open[k].items + xs)]) == Header(|payload|, LIST_START) + payload
  {
    hide EncAll, Pending, Enc, Header;
    var k := |c.open| - 1;
    EncAllAppend(c.open[k].items, xs);
    PendingLast(c.open);
    Concat3(EncAll(c.done), Pending(c.open[..k]), EncAll(c.open[k].items));
    Concat3(Written(c.(open := c.open[..k])), EncAll(c.open[k].items), EncAll(xs));
    EncAllOfList(c.open[k].items + xs);
  }

  lemma EncAllOfList(xs: seq<Item>)
    ensures EncAll([List(xs)]) == Header(|EncAll(xs)|, LIST_START) + EncAll(xs)
  {
    hide Header;
  }

  lemma PutAllOne(c: Content, x: Item)
    requires c.open == [] || c.open[|c.open| - 1].missing > 0
    ensures PutAll(c, [x]) == Some(Put(c, x))
  {}

  lemma PutNothing(c: Content, xs: seq<Item>)
    requires xs == []
    ensures PutAll(c, xs) == Some(c) && Written(c) + EncAll(xs) == Written(c)
  {}

  lemma PutRefuses(c: Content, xs: seq<Item>)
    requires c.open != [] && c.open[|c.open| - 1].missing < |xs|
    ensures PutAll(c, xs) == None
  {}

  lemma Concat3(a: seq<byte>, b: seq<byte>, c: seq<byte>)
    ensures a + (b + c) == a + b + c
  {}

  lemma HeaderSize(len: nat, start: byte)
    requires len < TWO_64
    ensures |Header(len, start)| <= 9
  {
    BigEndianSize64(len);
  }

  lemma StackNone(done: seq<Item>, open: seq<Frame>, stack: seq<(nat, nat)>)
    requires open == [] && stack == []
    ensures StackMatches(done, open, stack)
  {}

  lemma StackTop(done: seq<Item>, open: seq<Frame>, stack: seq<(nat, nat)>)
    requires StackMatches(done, open, stack)
    ensures |stack| == |open|
    ensures open != [] ==> var k := |open| - 1;
            && stack[k] == (open[k].missing, |Written(Content(done, open[..k]))|)
            && open[k].missing > 0
            && StackMatches(done, open[..k], stack[..k])
  {
    hide EncAll, Pending;
    var k := |open| - 1;
    assert forall j :: 0 <= j < k ==> open[..k][..j] == open[..j];
  }

  lemma StackReplaceTop(done: seq<Item>, open: seq<Frame>, stack: seq<(nat, nat)>, f: Frame)
    requires StackMatches(done, open, stack) && open != [] && f.missing > 0
    ensures var k := |open| - 1; StackMatches(done, open[..k] + [f], stack[k := (f.missing, stack[k].1)])
  {
    hide EncAll, Pending;
    var k := |open| - 1;
    assert forall j :: 0 <= j <= k ==> (open[..k] + [f])[..j] == open[..j];
  }

  lemma AnnounceWrites(c: Content, n: nat)
    ensures Written(Announce(c, n)) == Written(c)
  {
    hide Pending, EncAll;
    PendingSnoc(c.open, Frame([], n));
    EncAllNone([]);
  }

  lemma EncAllNone(xs: seq<Item>)
    requires xs == []
    ensures EncAll(xs) == []
  {}

  lemma StackPush(c: Content, stack: seq<(nat, nat)>, n: nat)
    requires StackMatches(c.done, c.open, stack) && n > 0
    ensures StackMatches(c.done, Announce(c, n).open, stack + [(n, |Written(c)|)])
  {
    hide Pending, EncAll;
    assert forall j :: 0 <= j <= |c.open| ==> Announce(c, n).open[..j] == c.open[..j];
    assert c.open[..|c.open|] == c.open;
  }

  lemma EncAllOne(x: Item)
    ensures EncAll([x]) == Enc(x)
  {
    hide Enc;
  }

  lemma EmptyList()
    ensures Enc(List([])) == [LIST_START]
  {}

  lemma BigEndianSmall(i: nat)
    ensures 0 < i < 256 ==> BigEndian(i) == [i as byte]
    ensures i >= 0x80 ==> |BigEndian(i)| > 1 || BigEndian(i)[0] >= 0x80
  {
    BigEndianSize(i, 1);
    assert 0 < i < 256 ==> BigEndian(i / 256) == [];
  }

  // ---------- The stream ----------

  datatype Outcome = Done | ThrowItemCount

  class RLPStream {
    var out: seq<byte>
    var listStack: seq<(nat, nat)>
    ghost var content: Content

    ghost predicate Valid() reads this {
      && out == Written(content)
      && StackMatches(content.done, content.open, listStack)
    }

    constructor ()
      ensures Valid() && content == Content([], [])
    {
      out, listStack, content := [], [], Content([], []);
    }

    /** `pushInt` and the header loop of `noteAppended`: the bytes of `value` are written from `last`
        leftwards, least significant first. */
    method WriteInt(last: int, value: nat)
      requires -1 <= last < |out| && |BigEndian(value)| <= last + 1
      modifies this`out
      ensures var first := last + 1 - |BigEndian(value)|;
              out == old(out)[..first] + BigEndian(value) + old(out)[last + 1..]
    {
      ghost var before := out;
      ghost var size := |BigEndian(value)|;
      var b, v := last, value;
      while v != 0
        invariant -1 <= b <= last && |out| == |before|
        invariant b + 1 - |BigEndian(v)| == last + 1 - size
        invariant BigEndian(value) == BigEndian(v) + out[b + 1..last + 1]
        invariant out[..b + 1] == before[..b + 1] && out[last + 1..] == before[last + 1..]
        decreases v
      {
        ghost var was := out;
        out := out[b := (v % 256) as byte];
        assert out[b..last + 1] == [(v % 256) as byte] + was[b + 1..last + 1];
        assert out[..b] == was[..b];
        v := v / 256;
        b := b - 1;
      }
      assert out == out[..b + 1] + out[b + 1..last + 1] + out[last + 1..];
      assert before[..b + 1] == old(out)[..last + 1 - size];
    }

    /** `bytesRequired`. */
    static method BytesRequired(n: nat) returns (k: nat)
      ensures k == |BigEndian(n)|
    {
      k := 0;
      var m := n;
      while m != 0
        invariant k + |BigEndian(m)| == |BigEndian(n)|
        decreases m
      {
        k, m := k + 1, m / 256;
      }
    }

    /** Makes room for `size` bytes at `p`, as `resize` and `memmove` do. */
    method OpenGap(p: nat, size: nat)
      requires p <= |out|
      modifies this`out
      ensures |out| == |old(out)| + size
      ensures out[..p] == old(out)[..p] && out[p + size..] == old(out)[p..]
    {
      var os := |out|;
      out := out + seq(size, _ => 0 as byte);
      out := out[..p + size] + out[p..os];
    }

    /** Inserts a list header for everything from `p` on, moving those bytes up. */
    method InsertListHeader(p: nat)
      requires p <= |out| && |out| - p < TWO_64
      modifies this`out
      ensures out == old(out)[..p] + Header(|old(out)| - p, LIST_START) + old(out)[p..]
    {
      hide BigEndian;
      var s := |out| - p;
      var brs := BytesRequired(s);
      BigEndianSize64(s);
      OpenGap(p, if s < IMM_LEN_COUNT then 1 else 1 + brs);
      ghost var front, back := out[..p], old(out)[p..];
      if s < IMM_LEN_COUNT {
        out := out[p := LIST_START + s as byte];
        assert out == front + [LIST_START + s as byte] + back;
      } else {
        out := out[p := LIST_IND_LEN_ZERO + brs as byte];
        assert out[..p + 1] == front + [LIST_IND_LEN_ZERO + brs as byte];
        assert out[p + 1 + brs..] == back;
        WriteInt(p + brs, s);
        Concat3(front, [LIST_IND_LEN_ZERO + brs as byte], BigEndian(s));
      }
    }

    /** The header of the innermost list, which starts at `p` and has just become full, is inserted. */
    method CloseList(p: nat, ghost c: Content, ghost xs: seq<Item>)
      requires c.open != [] && out == Written(c) + EncAll(xs) && |out| < TWO_64
      requires p == |Written(c.(open := c.open[..|c.open| - 1]))|
      modifies this`out
      ensures |out| <= |old(out)| + 9
      ensures var k := |c.open| - 1;
              out == Written(c.(open := c.open[..k])) + EncAll([List(c.open[k].items + xs)])
    {
      hide *;
      ghost var k := |c.open| - 1;
      CloseInserts(c, xs);
      HeaderSize(|EncAll(c.open[k].items + xs)|, LIST_START);
      ghost var front, payload := Written(c.(open := c.open[..k])), EncAll(c.open[k].items + xs);
      assert out[..p] == front && out[p..] == payload;
      InsertListHeader(p);
      Concat3(front, Header(|payload|, LIST_START), payload);
    }

    /** `out` holds the encodings of `xs` after everything that `c` accounts for, and finishing `xs`
        there leads to `target`. */
    ghost predicate Adding(c: Content, xs: seq<Item>, target: Option<Content>) reads this {
      && xs != []
      && out == Written(c) + EncAll(xs)
      && StackMatches(c.done, c.open, listStack)
      && |c.open| == |listStack|
      && PutAll(c, xs) == target
      && |out| + 9 * |listStack| < TWO_64
    }

    /** One round of `noteAppended` for a list that these items fill. */
    method NoteFull(ghost c: Content, ghost xs: seq<Item>, ghost target: Option<Content>)
      requires Adding(c, xs, target) && listStack != [] && listStack[|listStack| - 1].0 == |xs|
      modifies this`out, this`listStack
      ensures listStack == old(listStack)[..|old(listStack)| - 1]
      ensures |out| <= |old(out)| + 9
      ensures var k := |c.open| - 1; Adding(c.(open := c.open[..k]), [List(c.open[k].items + xs)], target)
    {
      hide Put, Pending, EncAll, StackMatches, Written, PutAll;
      var k := |listStack| - 1;
      StackTop(c.done, c.open, listStack);
      var p := listStack[k].1;
      listStack := listStack[..k];
      StackTop(c.done, c.open[..k], listStack);
      PutCloses(c, xs);
      CloseList(p, c, xs);
    }

    /** The last round, for a list that stays open. */
    method NoteOpen(ghost c: Content, ghost xs: seq<Item>, ghost target: Option<Content>, count: nat)
      requires Adding(c, xs, target) && count == |xs| && listStack != [] && listStack[|listStack| - 1].0 > count
      modifies this`listStack, this`content
      ensures Valid() && target == Some(content) && |listStack| == |old(listStack)|
    {
      hide Put, Pending, EncAll, StackMatches, Written, PutAll;
      var k := |listStack| - 1;
      StackTop(c.done, c.open, listStack);
      PutNested(c, xs);
      PutNestedIs(c, xs);
      StackReplaceTop(c.done, c.open, listStack, Frame(c.open[k].items + xs, listStack[k].0 - count));
      listStack := listStack[k := (listStack[k].0 - count, listStack[k].1)];
      content := PutAll(c, xs).value;
    }

    ghost method NoteTop(c: Content, xs: seq<Item>, target: Option<Content>)
      requires Adding(c, xs, target) && listStack == []
      modifies this`content
      ensures Valid() && target == Some(content)
    {
      hide Put, Pending, EncAll, StackMatches, Written, PutAll;
      PutTop(c, xs);
      content := PutAll(c, xs).value;
      StackNone(content.done, content.open, listStack);
    }

    /** `noteAppended`: the bytes of `itemCount` finished items have just been added to `out`. Throws,
        with the stack as it was, when the innermost list misses fewer. */
    method NoteAppended(itemCount: nat, ghost xs: seq<Item>) returns (r: Outcome)
      requires itemCount == |xs| && out == Written(content) + EncAll(xs)
      requires StackMatches(content.done, content.open, listStack)
      requires |out| + 9 * |listStack| < TWO_64
      modifies this
      ensures r.Done? <==> PutAll(old(content), xs).Some?
      ensures r.Done? ==> Valid() && content == PutAll(old(content), xs).value
      ensures |out| + 9 * |listStack| <= |old(out)| + 9 * |old(listStack)|
      ensures !r.Done? ==> out == old(out) && listStack == old(listStack)
    {
      hide Put, Pending, EncAll, Written, PutAll, StackMatches;
      if itemCount == 0 {
        PutNothing(content, xs);
        return Done;
      }
      ghost var ys, c, target := xs, content, PutAll(content, xs);
      var count := itemCount;
      StackTop(c.done, c.open, listStack);
      while listStack != []
        invariant count == |ys| && (listStack == old(listStack) || count == 1)
        invariant listStack == old(listStack) ==> out == old(out)
        invariant Adding(c, ys, target)
        invariant |out| + 9 * |listStack| <= |old(out)| + 9 * |old(listStack)|
        decreases |listStack|
      {
        var k := |listStack| - 1;
        StackTop(c.done, c.open, listStack);
        if listStack[k].0 < count {
          PutRefuses(c, ys);
          return ThrowItemCount;
        }
        if listStack[k].0 > count {
          NoteOpen(c, ys, target, count);
          return Done;
        }
        NoteFull(c, ys, target);
        c, ys := c.(open := c.open[..k]), [List(c.open[k].items + ys)];
        count := 1;
      }
      NoteTop(c, ys, target);
      return Done;
    }

    // ---------- The appending calls ----------

    /** `appendRaw`: bytes that already are the encodings of `itemCount` items. */
    method AppendRaw(rlp: seq<byte>, itemCount: nat, ghost xs: seq<Item>) returns (r: Outcome)
      requires Valid() && itemCount == |xs| && rlp == EncAll(xs)
      requires |out| + 9 * |listStack| + |rlp| < TWO_64
      modifies this
      ensures r.Done? <==> PutAll(old(content), xs).Some?
      ensures r.Done? ==> Valid() && content == PutAll(old(content), xs).value
      ensures |out| + 9 * |listStack| <= |old(out)| + 9 * |old(listStack)| + |rlp|
    {
      out := out + rlp;
      r := NoteAppended(itemCount, xs);
    }

    /** The bytes of one finished item have been added; this never throws. */
    method NoteItem(ghost before: seq<byte>, ghost x: Item)
      requires before == Written(content) && out == before + Enc(x)
      requires StackMatches(content.done, content.open, listStack)
      requires |out| + 9 * |listStack| < TWO_64
      modifies this
      ensures Valid() && content == Put(old(content), x)
      ensures |out| + 9 * |listStack| <= |old(out)| + 9 * |old(listStack)|
    {
      EncAllOne(x);
      hide EncAll, Enc, Put, PutAll, Written, Pending, StackMatches;
      StackTop(content.done, content.open, listStack);
      PutAllOne(content, x);
      var r := NoteAppended(1, [x]);
    }

    /** `pushCount`: the header of a payload of 56 bytes or more. */
    method PushCount(count: nat, base: byte)
      requires IMM_LEN_COUNT <= count < TWO_64 && base <= LIST_IND_LEN_ZERO
      modifies this`out
      ensures |BigEndian(count)| <= 8
      ensures out == old(out) + [base + |BigEndian(count)| as byte] + BigEndian(count)
    {
      hide BigEndian;
      BigEndianSize64(count);
      var br := BytesRequired(count);
      out := out + [base + br as byte];
      PushInt(count, br);
    }

    /** `pushInt`. */
    method PushInt(value: nat, br: nat)
      requires br == |BigEndian(value)|
      modifies this`out
      ensures out == old(out) + BigEndian(value)
    {
      hide BigEndian;
      ghost var before := out;
      out := out + seq(br, _ => 0 as byte);
      WriteInt(|out| - 1, value);
      assert (before + seq(br, _ => 0 as byte))[..|before|] == before;
    }

    /** The header of a string, as both forms of `append` write it. */
    method PushStringHeader(size: nat)
      requires size < TWO_64
      modifies this`out
      ensures out == old(out) + Header(size, DATA_IMM_LEN_START)
    {
      hide BigEndian;
      if size < IMM_LEN_COUNT {
        out := out + [size as byte + DATA_IMM_LEN_START];
      } else {
        PushCount(size, DATA_IND_LEN_ZERO);
      }
    }

    /** Skips leading zero bytes. */
    static method SkipZeros(s: seq<byte>) returns (t: seq<byte>)
      ensures t == Trimmed(s)
    {
      t := s;
      while t != [] && t[0] == 0
        invariant Trimmed(t) == Trimmed(s)
        decreases |t|
      {
        t := t[1..];
      }
    }

    /** `append(bytesConstRef)`: a string; with `compact`, leading zero bytes are left out. */
    method Append(s: seq<byte>, compact: bool)
      requires Valid() && |out| + 9 * |listStack| + |s| + 9 < TWO_64
      modifies this
      ensures Valid()
      ensures content == Put(old(content), Str(if compact then Trimmed(s) else s))
      ensures |out| + 9 * |listStack| <= |old(out)| + 9 * |old(listStack)| + |s| + 9
    {
      hide Put, Pending, EncAll, StackMatches, Written, BigEndian, Header, Trimmed;
      var t := s;
      if compact { t := SkipZeros(s); }
      ghost var before := out;
      if |t| == 1 && t[0] < DATA_IMM_LEN_START {
        out := out + t;
      } else {
        HeaderSize(|t|, DATA_IMM_LEN_START);
        PushStringHeader(|t|);
        Concat3(before, Header(|t|, DATA_IMM_LEN_START), t);
        out := out + t;
      }
      NoteItem(before, Str(t));
    }

    /** `append(bigint)`: a number is the string of its shortest big-endian form. */
    method AppendInt(i: nat)
      requires Valid() && |BigEndian(i)| < 0x1_0000_0000
      requires |out| + 9 * |listStack| + |BigEndian(i)| + 9 < TWO_64
      modifies this
      ensures Valid() && content == Put(old(content), Str(BigEndian(i)))
    {
      hide Put, Pending, EncAll, StackMatches, Written, BigEndian;
      BigEndianSmall(i);
      ghost var before := out;
      if i == 0 {
        assert Header(0, DATA_IMM_LEN_START) == [DATA_IMM_LEN_START];
        out := out + [DATA_IMM_LEN_START];
      } else if i < 0x80 {
        out := out + [i as byte];
      } else {
        var br := BytesRequired(i);
        HeaderSize(br, DATA_IMM_LEN_START);
        PushStringHeader(br);
        PushInt(i, br);
        Concat3(before, Header(br, DATA_IMM_LEN_START), BigEndian(i));
      }
      NoteItem(before, Str(BigEndian(i)));
    }

    /** `appendList(size_t)`: announces a list of `n` items that follow. */
    method AppendList(n: nat)
      requires Valid() && |out| + 9 * |listStack| + 9 < TWO_64
      modifies this
      ensures Valid()
      ensures content == if n == 0 then Put(old(content), List([])) else Announce(old(content), n)
      ensures |out| + 9 * |listStack| <= |old(out)| + 9 * |old(listStack)| + 9
    {
      hide Put, Pending, EncAll, StackMatches;
      if n == 0 {
        EmptyList();
        ghost var before := out;
        out := out + [LIST_START];
        NoteItem(before, List([]));
      } else {
        StackPush(content, listStack, n);
        AnnounceWrites(content, n);
        listStack := listStack + [(n, |out|)];
        content := Announce(content, n);
      }
    }

    /** `appendList(bytesConstRef)`: a list whose items are encoded already. */
    method AppendEncodedList(rlp: seq<byte>, ghost xs: seq<Item>)
      requires Valid() && rlp == EncAll(xs) && |out| + 9 * |listStack| + |rlp| + 9 < TWO_64
      modifies this
      ensures Valid() && content == Put(old(content), List(xs))
      ensures |out| + 9 * |listStack| <= |old(out)| + 9 * |old(listStack)| + |rlp| + 9
    {
      hide Put, Pending, EncAll, StackMatches, Written, BigEndian;
      ghost var before := out;
      HeaderSize(|rlp|, LIST_START);
      if |rlp| < IMM_LEN_COUNT {
        out := out + [|rlp| as byte + LIST_START];
      } else {
        PushCount(|rlp|, LIST_IND_LEN_ZERO);
      }
      Concat3(before, Header(|rlp|, LIST_START), rlp);
      out := out + rlp;
      NoteItem(before, List(xs));
    }

    /** The call sequence for a whole tree leaves the stack as it was, with one item more. */
    method AppendItem(x: Item)
      requires Valid() && |out| + 9 * |listStack| + Budget(x) < TWO_64
      modifies this
      ensures Valid() && content == Put(old(content), x)
      ensures |out| + 9 * |listStack| <= |old(out)| + 9 * |old(listStack)| + Budget(x)
      decreases x
    {
      hide Put, Pending, EncAll, StackMatches, Written;
      ghost var c := content;
      ghost var start := |out| + 9 * |listStack|;
      if x.Str? {
        Append(x.bytes, false);
      } else {
        var xs := x.items;
        AppendList(|xs|);
        for i := 0 to |xs|
          invariant Valid()
          invariant xs != [] ==> EmitAll(content, xs[i..]) == EmitAll(Announce(c, |xs|), xs)
          invariant xs == [] ==> content == Put(c, x)
          invariant |out| + 9 * |listStack| + BudgetAll(xs[i..]) <= start + Budget(x)
        {
          EmitIsPut(content, xs[i]);
          assert xs[i..][1..] == xs[i + 1..];
          AppendItem(xs[i]);
        }
        EmitIsPut(c, x);
      }
    }
  }

  /** `rlp(x)`: a fresh stream given a tree holds exactly its recursive encoding. */
  method Encode(x: Item) returns (d: seq<byte>)
    requires Budget(x) < TWO_64
    ensures d == Enc(x)
  {
    var s := new RLPStream();
    s.AppendItem(x);
    EncAllOne(x);
    PendingNone([]);
    hide Enc, EncAll, Pending;
    assert s.content == Content([x], []);
    d := s.out;
  }
}
