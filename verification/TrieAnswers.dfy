/** What the node tree knows: looking up a key, listing the entries, and how both relate to the map
    the tree was built from. */
module TrieAnswers {
  import opened Bytes
  import opened Lex
  import opened HexPrefix
  import opened Trie

  // ---------- Build, case by case ----------

  ghost predicate Splits(es: seq<Entry>, pre: nat)
    requires Range(es, pre)
  {
    |es| >= 2 && (RangeKeys(es, pre); SharedPre(es, pre, |es|) == pre)
  }

  lemma BuildSmall(es: seq<Entry>, pre: nat)
    requires Range(es, pre) && |es| <= 1
    ensures es == [] ==> Build(es, pre) == Null
    ensures |es| == 1 ==> pre <= |es[0].key| && Build(es, pre) == Leaf(es[0].key[pre..], es[0].value)
  {
    RangeKeys(es, pre);
  }

  lemma BuildExt(es: seq<Entry>, pre: nat) returns (shared: nat)
    requires Range(es, pre) && |es| >= 2 && !Splits(es, pre)
    ensures pre < shared <= |es[0].key| && Range(es, shared)
    ensures Build(es, pre) == Ext(es[0].key[pre..shared], Build(es, shared))
  {
    RangeKeys(es, pre);
    LongerRange(es, pre);
    shared := SharedPre(es, pre, |es|);
  }

  lemma BuildBranch(es: seq<Entry>, pre: nat)
    requires Range(es, pre) && Splits(es, pre)
    ensures pre <= |es[0].key|
    ensures Build(es, pre).Branch? && |Build(es, pre).children| == 16
    ensures Build(es, pre).value == if |es[0].key| == pre then es[0].value else []
    ensures forall v :: 0 <= v < 16 ==>
        Range(Slot(es, pre, v), pre + 1) && |Slot(es, pre, v)| < |es| &&
        Build(es, pre).children[v] == Build(Slot(es, pre, v), pre + 1)
  {
    RangeKeys(es, pre);
    LongerRange(es, pre);
    forall v | 0 <= v < 16 ensures Range(Slot(es, pre, v), pre + 1) && |Slot(es, pre, v)| < |es| {
      SlotIsRange(es, pre, v);
      SlotSmaller(es, pre, v);
    }
  }

  lemma BuildNull(es: seq<Entry>, pre: nat)
    requires Range(es, pre)
    ensures Build(es, pre) == Null <==> es == []
  {
    if |es| <= 1 {
      BuildSmall(es, pre);
    } else if Splits(es, pre) {
      BuildBranch(es, pre);
    } else {
      var _ := BuildExt(es, pre);
    }
  }

  // ---------- Lookup ----------

  /** Following a path from a node; an empty branch value means no entry. */
  function Lookup(n: Node, path: seq<byte>): Option<seq<byte>> {
    match n
    case Null => None
    case Leaf(p, v) => if path == p then Some(v) else None
    case Ext(p, c) => if p <= path then Lookup(c, path[|p|..]) else None
    case Branch(cs, v) =>
      if path == [] then (if v == [] then None else Some(v))
      else if path[0] as nat < |cs| then Lookup(cs[path[0]], path[1..])
      else None
  }

  /** The map's own answer. */
  function Find(es: seq<Entry>, k: seq<byte>): Option<seq<byte>> {
    if es == [] then None else if es[0].key == k then Some(es[0].value) else Find(es[1..], k)
  }

  /** Some other key of the map continues `k`. */
  ghost predicate Extended(es: seq<Entry>, k: seq<byte>) {
    exists i :: 0 <= i < |es| && k < es[i].key
  }

  /** The tree's answer: the map's, except that an empty value stored under a key which another key
      continues is not seen. */
  ghost function Expected(es: seq<Entry>, k: seq<byte>): Option<seq<byte>> {
    if Find(es, k) == Some([]) && Extended(es, k) then None else Find(es, k)
  }

  lemma {:induction false} FindAt(es: seq<Entry>, i: nat)
    requires Sorted(es) && i < |es|
    ensures Find(es, es[i].key) == Some(es[i].value)
  {
    if i > 0 {
      assert Less(es[0].key, es[i].key);
      LessAsymmetric(es[0].key, es[i].key);
      FindAt(es[1..], i - 1);
    }
  }

  lemma {:induction false} FindNone(es: seq<Entry>, k: seq<byte>)
    requires forall i :: 0 <= i < |es| ==> es[i].key != k
    ensures Find(es, k) == None
  {
    if es != [] { FindNone(es[1..], k); }
  }

  lemma {:induction false} FindSome(es: seq<Entry>, k: seq<byte>) returns (i: nat)
    requires Find(es, k).Some?
    ensures i < |es| && es[i] == Entry(k, Find(es, k).value)
  {
    if es[0].key == k {
      i := 0;
    } else {
      var j := FindSome(es[1..], k);
      i := j + 1;
    }
  }

  /** A slice that holds every entry whose key equals or continues `k` answers like the whole range. */
  lemma SliceAnswers(es: seq<Entry>, lo: nat, hi: nat, k: seq<byte>)
    requires Sorted(es) && lo <= hi <= |es|
    requires forall i :: 0 <= i < |es| && k <= es[i].key ==> lo <= i < hi
    ensures Expected(es[lo..hi], k) == Expected(es, k)
  {
    hide Less;
    var s := es[lo..hi];
    assert Sorted(s);
    assert Extended(es, k) ==> Extended(s, k) by {
      if Extended(es, k) {
        var i :| 0 <= i < |es| && k < es[i].key;
        assert s[i - lo] == es[i];
      }
    }
    assert Extended(s, k) ==> Extended(es, k) by {
      if Extended(s, k) {
        var i :| 0 <= i < |s| && k < s[i].key;
        assert s[i] == es[lo + i];
      }
    }
    if Find(es, k).Some? {
      var i := FindSome(es, k);
      assert s[i - lo] == es[i];
      FindAt(s, i - lo);
    } else if Find(s, k).Some? {
      var i := FindSome(s, k);
      FindAt(es, lo + i);
    }
  }

  lemma SlotAnswers(es: seq<Entry>, pre: nat, k: seq<byte>)
    requires Range(es, pre) && es != [] && |k| > pre && k[pre] < 16
    ensures Expected(Slot(es, pre, k[pre] as nat), k) == Expected(es, k)
  {
    var v := k[pre] as nat;
    SlotsTile(es, pre, v);
    forall i | 0 <= i < |es| && k <= es[i].key ensures Lo(es, pre, v) <= i < Lo(es, pre, v + 1) {
      SlotExact(es, pre, v, i);
      assert es[i].key[pre] == k[pre];
    }
    SliceAnswers(es, Lo(es, pre, v), Lo(es, pre, v + 1), k);
  }

  lemma NotUnderPrefix(es: seq<Entry>, m: nat, k: seq<byte>)
    requires Range(es, m) && es != []
    requires |k| < m || k[..m] != es[0].key[..m]
    ensures Find(es, k) == None
  {
    hide Less, IsNibbles;
    forall i | 0 <= i < |es| ensures es[i].key != k {
      assert Below(es[i], m, es[0].key[..m]);
    }
    FindNone(es, k);
  }

  lemma LeafAnswers(e: Entry, pre: nat, k: seq<byte>)
    requires pre <= |e.key| && pre <= |k| && k[..pre] == e.key[..pre]
    ensures Lookup(Leaf(e.key[pre..], e.value), k[pre..]) == Expected([e], k)
  {
    assert k == k[..pre] + k[pre..] && e.key == e.key[..pre] + e.key[pre..];
    assert !(k < k);
    FindAt([e], 0);
    if e.key != k { FindNone([e], k); }
  }

  lemma HereAnswers(es: seq<Entry>, pre: nat, k: seq<byte>)
    requires Range(es, pre) && |es| >= 2 && |k| == pre && k == es[0].key[..pre]
    ensures Expected(es, k) == if |es[0].key| == pre && es[0].value != [] then Some(es[0].value) else None
  {
    if |es[0].key| == pre {
      assert es[0].key == k;
      FindAt(es, 0);
      LaterKeysLonger(es, pre, 1);
      assert Below(es[1], pre, k);
      assert k < es[1].key;
    } else {
      forall i | 0 <= i < |es| ensures es[i].key != k {
        if i > 0 { LaterKeysLonger(es, pre, i); }
      }
      FindNone(es, k);
    }
  }

  /** The tree answers every key below its prefix as `Expected` says. */
  lemma {:induction false} LookupBuild(es: seq<Entry>, pre: nat, k: seq<byte>)
    requires Range(es, pre) && IsNibbles(k) && pre <= |k|
    requires es != [] ==> k[..pre] == es[0].key[..pre]
    ensures Lookup(Build(es, pre), k[pre..]) == Expected(es, k)
    decreases |es|, if es == [] then 0 else |es[0].key| - pre
  {
    hide Build, Expected;
    if es == [] {
      BuildSmall(es, pre);
      ExpectedNothing(es, k);
    } else if |es| == 1 {
      BuildSmall(es, pre);
      LeafAnswers(es[0], pre, k);
      assert es == [es[0]];
    } else if Splits(es, pre) {
      BuildBranch(es, pre);
      if |k| == pre {
        HereAnswers(es, pre, k);
      } else {
        var v := k[pre] as nat;
        SlotAnswers(es, pre, k);
        SlotIsRange(es, pre, v);
        assert k[..pre + 1] == k[..pre] + [k[pre]];
        LookupBuild(Slot(es, pre, v), pre + 1, k);
        assert k[pre..][1..] == k[pre + 1..];
      }
    } else {
      ExtAnswers(es, pre, k);
    }
  }

  lemma ExpectedNothing(es: seq<Entry>, k: seq<byte>)
    ensures es == [] ==> Expected(es, k) == None
    ensures Find(es, k) == None ==> Expected(es, k) == None
  {}

  lemma {:induction false} ExtAnswers(es: seq<Entry>, pre: nat, k: seq<byte>)
    requires Range(es, pre) && IsNibbles(k) && pre <= |k| && |es| >= 2 && !Splits(es, pre)
    requires k[..pre] == es[0].key[..pre]
    ensures Lookup(Build(es, pre), k[pre..]) == Expected(es, k)
    decreases |es|, |es[0].key| - pre, 0
  {
    var m := BuildExt(es, pre);
    hide Build, Expected, Range, Splits;
    var p := es[0].key[pre..m];
    assert es[0].key[..m] == es[0].key[..pre] + p;
    assert k == k[..pre] + k[pre..];
    if p <= k[pre..] {
      assert k[..m] == k[..pre] + k[pre..][..|p|];
      LookupBuild(es, m, k);
      assert k[pre..][|p|..] == k[m..];
    } else {
      if |k| >= m { assert k[pre..][..|p|] == k[pre..m] && k[..m] == k[..pre] + k[pre..m]; }
      NotUnderPrefix(es, m, k);
      ExpectedNothing(es, k);
    }
  }

  /** The whole trie answers every key as the map does, exactly when the key is not one that holds an
      empty value and that another key continues. */
  lemma LookupFaithful(es: seq<Entry>, k: seq<byte>)
    requires Range(es, 0) && IsNibbles(k)
    ensures Lookup(Build(es, 0), k) == Find(es, k) <==> !(Find(es, k) == Some([]) && Extended(es, k))
  {
    hide Build, Range;
    assert k[0..] == k;
    assert es != [] ==> k[..0] == es[0].key[..0];
    LookupBuild(es, 0, k);
  }
}
