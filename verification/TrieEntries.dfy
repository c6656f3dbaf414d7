/** Reading the map back out of the node tree: which maps become the same tree. */
module TrieEntries {
  import opened Bytes
  import opened Lex
  import opened HexPrefix
  import opened Trie
  import opened TrieAnswers

  // ---------- The entries that leave a trace ----------

  ghost predicate DivergeAt(a: seq<byte>, b: seq<byte>, k: seq<byte>) {
    k < a && k < b && a[|k|] != b[|k|]
  }

  /** Two keys continue `k` with different nibbles. */
  ghost predicate Diverges(es: seq<Entry>, k: seq<byte>) {
    exists i, j :: 0 <= i < |es| && 0 <= j < |es| && DivergeAt(es[i].key, es[j].key, k)
  }

  /** An empty value at a key where the others diverge looks like no entry at all. */
  ghost predicate Hidden(es: seq<Entry>, e: Entry) { e.value == [] && Diverges(es, e.key) }

  /** The entries of `es` that are not hidden in `all`. */
  ghost function Keep(es: seq<Entry>, all: seq<Entry>): seq<Entry> {
    if es == [] then []
    else (if Hidden(all, es[0]) then [] else [es[0]]) + Keep(es[1..], all)
  }

  lemma {:induction false} KeepAppend(a: seq<Entry>, b: seq<Entry>, all: seq<Entry>)
    ensures Keep(a + b, all) == Keep(a, all) + Keep(b, all)
  {
    hide Hidden;
    if a == [] {
      assert a + b == b;
    } else {
      assert (a + b)[1..] == a[1..] + b;
      KeepAppend(a[1..], b, all);
    }
  }

  lemma {:induction false} KeepSame(s: seq<Entry>, a: seq<Entry>, b: seq<Entry>)
    requires forall i :: 0 <= i < |s| ==> Hidden(a, s[i]) == Hidden(b, s[i])
    ensures Keep(s, a) == Keep(s, b)
  {
    hide Hidden;
    if s != [] { KeepSame(s[1..], a, b); }
  }

  lemma DivergesAmong(es: seq<Entry>, i: nat, j: nat, k: seq<byte>)
    requires i < |es| && j < |es| && DivergeAt(es[i].key, es[j].key, k)
    ensures Diverges(es, k)
  {}

  lemma DivergesWitness(es: seq<Entry>, k: seq<byte>) returns (i: nat, j: nat)
    requires Diverges(es, k)
    ensures i < |es| && j < |es| && DivergeAt(es[i].key, es[j].key, k)
    ensures k < es[i].key && k < es[j].key
  {
    i, j :| 0 <= i < |es| && 0 <= j < |es| && DivergeAt(es[i].key, es[j].key, k);
  }

  /** Whether an entry is hidden depends only on the entries that continue its key. */
  lemma HiddenInSlice(es: seq<Entry>, lo: nat, hi: nat, e: Entry)
    requires lo <= hi <= |es|
    requires forall i :: 0 <= i < |es| && e.key < es[i].key ==> lo <= i < hi
    ensures Hidden(es[lo..hi], e) == Hidden(es, e)
  {
    hide DivergeAt, Diverges;
    var s := es[lo..hi];
    if Diverges(es, e.key) {
      var i, j := DivergesWitness(es, e.key);
      DivergesAmong(s, i - lo, j - lo, e.key);
    } else if Diverges(s, e.key) {
      var i, j := DivergesWitness(s, e.key);
      DivergesAmong(es, lo + i, lo + j, e.key);
    }
  }

  lemma KeepOfSlot(es: seq<Entry>, pre: nat, v: nat)
    requires Range(es, pre)
    ensures Keep(Slot(es, pre, v), es) == Keep(Slot(es, pre, v), Slot(es, pre, v))
  {
    SlotsTile(es, pre, v);
    var lo, hi := Lo(es, pre, v), Lo(es, pre, v + 1);
    var s := Slot(es, pre, v);
    assert s == es[lo..hi];
    hide Keep, Lo, Slot;
    forall i | 0 <= i < |s| ensures Hidden(es, s[i]) == Hidden(s, s[i]) {
      SlotExact(es, pre, v, lo + i);
      forall j | 0 <= j < |es| && s[i].key < es[j].key ensures lo <= j < hi {
        SlotExact(es, pre, v, j);
      }
      HiddenInSlice(es, lo, hi, s[i]);
    }
    KeepSame(s, es, s);
  }

  lemma KeepSingle(es: seq<Entry>)
    requires |es| <= 1
    ensures Keep(es, es) == es
  {
    if |es| == 1 {
      assert !Diverges(es, es[0].key);
      assert es[1..] == [];
    }
  }

  // ---------- The listing of a tree ----------

  ghost predicate TwoChildren(cs: seq<Node>) {
    exists i, j :: 0 <= i < j < |cs| && cs[i] != Null && cs[j] != Null
  }

  /** All entries of a tree in order; a branch that has fewer than two children needs its value. */
  ghost function Entries(n: Node, prefix: seq<byte>): seq<Entry>
    decreases n, 0
  {
    match n
    case Null => []
    case Leaf(p, v) => [Entry(prefix + p, v)]
    case Ext(p, c) => Entries(c, prefix + p)
    case Branch(cs, v) =>
      (if v == [] && TwoChildren(cs) then [] else [Entry(prefix, v)]) + EntriesFrom(cs, prefix, 0)
  }

  ghost function EntriesFrom(cs: seq<Node>, prefix: seq<byte>, i: nat): seq<Entry>
    decreases cs, |cs| - i
  {
    if i >= |cs| || i >= 256 then []
    else Entries(cs[i], prefix + [i as byte]) + EntriesFrom(cs, prefix, i + 1)
  }

  /** Two slots are in use exactly when two keys of the range diverge right after the prefix. */
  lemma TwoSlots(es: seq<Entry>, pre: nat)
    requires Range(es, pre) && Splits(es, pre)
    ensures pre <= |es[0].key|
    ensures Build(es, pre).Branch?
    ensures TwoChildren(Build(es, pre).children) <==> Diverges(es, es[0].key[..pre])
  {
    BuildBranch(es, pre);
    var cs, k := Build(es, pre).children, es[0].key[..pre];
    hide Build, Splits;
    if TwoChildren(cs) {
      var v, w :| 0 <= v < w < |cs| && cs[v] != Null && cs[w] != Null;
      var i := SlotMember(es, pre, v);
      var j := SlotMember(es, pre, w);
      assert DivergeAt(es[i].key, es[j].key, k);
    }
    if Diverges(es, k) {
      var i, j :| 0 <= i < |es| && 0 <= j < |es| && DivergeAt(es[i].key, es[j].key, k);
      var v := MemberSlot(es, pre, i);
      var w := MemberSlot(es, pre, j);
      assert if v < w then cs[v] != Null && cs[w] != Null else cs[w] != Null && cs[v] != Null;
    }
  }

  lemma SlotMember(es: seq<Entry>, pre: nat, v: nat) returns (i: nat)
    requires Range(es, pre) && Range(Slot(es, pre, v), pre + 1) && v < 16
    requires Build(Slot(es, pre, v), pre + 1) != Null
    ensures i < |es| && pre <= |es[0].key| && es[0].key[..pre] < es[i].key && es[i].key[pre] as nat == v
  {
    BuildNull(Slot(es, pre, v), pre + 1);
    i := Lo(es, pre, v);
    SlotExact(es, pre, v, i);
    assert Below(es[i], pre, es[0].key[..pre]);
  }

  lemma MemberSlot(es: seq<Entry>, pre: nat, i: nat) returns (v: nat)
    requires Range(es, pre) && i < |es| && |es[i].key| > pre
    ensures v < 16 && v == es[i].key[pre] as nat
    ensures Range(Slot(es, pre, v), pre + 1) && Build(Slot(es, pre, v), pre + 1) != Null
  {
    NextIsNibble(es, pre, i);
    v := es[i].key[pre] as nat;
    SlotExact(es, pre, v, i);
    SlotsTile(es, pre, v);
    SlotIsRange(es, pre, v);
    BuildNull(Slot(es, pre, v), pre + 1);
  }

  /** Listing the tree gives back every entry that is not hidden. */
  lemma {:induction false} EntriesBuild(es: seq<Entry>, pre: nat)
    requires Range(es, pre)
    ensures es != [] ==> pre <= |es[0].key| && Entries(Build(es, pre), es[0].key[..pre]) == Keep(es, es)
    decreases |es|, if es == [] then 0 else |es[0].key| - pre, 1
  {
    hide Build, Keep;
    RangeKeys(es, pre);
    if |es| == 1 {
      BuildSmall(es, pre);
      KeepSingle(es);
      assert es[0].key == es[0].key[..pre] + es[0].key[pre..];
    } else if |es| >= 2 && Splits(es, pre) {
      BuildBranch(es, pre);
      EntriesFromSlot(es, pre, 0);
      TwoSlots(es, pre);
      FirstKept(es, pre);
    } else if |es| >= 2 {
      var m := BuildExt(es, pre);
      assert es[0].key[..m] == es[0].key[..pre] + es[0].key[pre..m];
      EntriesBuild(es, m);
    }
  }

  /** The entry that ends at the prefix, if any, comes before slot 0. */
  lemma FirstKept(es: seq<Entry>, pre: nat)
    requires Range(es, pre) && Splits(es, pre)
    ensures pre <= |es[0].key|
    ensures var v: seq<byte> := if |es[0].key| == pre then es[0].value else [];
            var k := es[0].key[..pre];
            Keep(es, es) == (if v == [] && Diverges(es, k) then [] else [Entry(k, v)]) + Keep(es[Lo(es, pre, 0)..], es)
  {
    RangeKeys(es, pre);
    SlotsTile(es, pre, 0);
    var k := es[0].key[..pre];
    if |es[0].key| == pre {
      assert es[0].key == k;
      KeepHead(es);
    } else {
      NoFirstDiverges(es, pre);
      assert es[0..] == es;
    }
  }

  lemma KeepHead(es: seq<Entry>)
    requires es != []
    ensures Keep(es, es) == (if Hidden(es, es[0]) then [] else [es[0]]) + Keep(es[1..], es)
  {}

  lemma NoFirstDiverges(es: seq<Entry>, pre: nat)
    requires Range(es, pre) && Splits(es, pre) && |es[0].key| > pre
    ensures Diverges(es, es[0].key[..pre])
  {
    RangeKeys(es, pre);
    var w := SomeSharesNoMore(es, pre, |es|);
    LaterKeysLonger(es, pre, w);
    assert Below(es[w], pre, es[0].key[..pre]);
    assert DivergeAt(es[0].key, es[w].key, es[0].key[..pre]);
  }

  lemma TileFrom(es: seq<Entry>, pre: nat, v: nat)
    requires Range(es, pre)
    ensures es[Lo(es, pre, v)..] == Slot(es, pre, v) + es[Lo(es, pre, v + 1)..]
    ensures es[Lo(es, pre, 16)..] == []
  {
    SlotsTile(es, pre, v);
    hide Lo, Range;
  }

  lemma {:induction false} EntriesFromSlot(es: seq<Entry>, pre: nat, v: nat)
    requires Range(es, pre) && |es| >= 2 && Splits(es, pre) && v <= 16
    ensures pre <= |es[0].key|
    ensures Build(es, pre).Branch?
    ensures EntriesFrom(Build(es, pre).children, es[0].key[..pre], v) == Keep(es[Lo(es, pre, v)..], es)
    decreases |es|, |es[0].key| - pre, 0, 16 - v
  {
    hide *;
    BuildBranch(es, pre);
    TileFrom(es, pre, v);
    var cs, k := Build(es, pre).children, es[0].key[..pre];
    if v == 16 {
      KeepNothing(es[Lo(es, pre, v)..], es);
      EntriesFromEnd(cs, k, v);
    } else {
      EntriesFromSlot(es, pre, v + 1);
      SlotListing(es, pre, v);
      KeepAppend(Slot(es, pre, v), es[Lo(es, pre, v + 1)..], es);
      EntriesFromStep(cs, k, v);
    }
  }

  lemma EntriesFromEnd(cs: seq<Node>, prefix: seq<byte>, i: nat)
    requires i >= |cs|
    ensures EntriesFrom(cs, prefix, i) == []
  {}

  lemma EntriesFromStep(cs: seq<Node>, prefix: seq<byte>, i: nat)
    requires i < |cs| <= 256
    ensures EntriesFrom(cs, prefix, i) == Entries(cs[i], prefix + [i as byte]) + EntriesFrom(cs, prefix, i + 1)
  {
    hide Entries;
  }

  lemma KeepNothing(s: seq<Entry>, all: seq<Entry>)
    requires s == []
    ensures Keep(s, all) == []
  {}

  lemma {:induction false} SlotListing(es: seq<Entry>, pre: nat, v: nat)
    requires Range(es, pre) && Splits(es, pre) && v < 16
    ensures pre <= |es[0].key|
    ensures Range(Slot(es, pre, v), pre + 1)
    ensures Entries(Build(Slot(es, pre, v), pre + 1), es[0].key[..pre] + [v as byte]) == Keep(Slot(es, pre, v), es)
    decreases |es|, |es[0].key| - pre, 0, 0
  {
    BuildBranch(es, pre);
    SlotIsRange(es, pre, v);
    var s := Slot(es, pre, v);
    assert |s| < |es|;
    hide Build, Splits, Keep, Slot;
    if s == [] {
      BuildSmall(s, pre + 1);
      KeepNothing(s, es);
    } else {
      EntriesBuild(s, pre + 1);
      KeepOfSlot(es, pre, v);
    }
  }

  // ---------- Leaving hidden entries out changes nothing ----------

  lemma {:induction false} KeepMember(es: seq<Entry>, all: seq<Entry>, i: nat) returns (j: nat)
    requires i < |Keep(es, all)|
    ensures j < |es| && Keep(es, all)[i] == es[j]
  {
    hide Hidden;
    var h := if Hidden(all, es[0]) then 0 else 1;
    if i < h {
      j := 0;
    } else {
      j := KeepMember(es[1..], all, i - h);
      j := j + 1;
    }
  }

  lemma {:induction false} KeepSorted(es: seq<Entry>, all: seq<Entry>)
    requires Sorted(es)
    ensures Sorted(Keep(es, all))
  {
    hide Hidden, Less;
    if es != [] {
      KeepSorted(es[1..], all);
      var rest := Keep(es[1..], all);
      forall i | 0 <= i < |rest| ensures Less(es[0].key, rest[i].key) {
        var j := KeepMember(es[1..], all, i);
        assert es[1..][j] == es[j + 1];
      }
    }
  }

  lemma KeepRange(es: seq<Entry>, pre: nat)
    requires Range(es, pre)
    ensures Range(Keep(es, es), pre)
    ensures Keep(es, es) != [] ==> pre <= |es[0].key| && pre <= |Keep(es, es)[0].key| && Keep(es, es)[0].key[..pre] == es[0].key[..pre]
  {
    KeepSorted(es, es);
    var ks := Keep(es, es);
    hide Keep, Less, IsNibbles;
    forall i | 0 <= i < |ks| ensures pre <= |es[0].key| && Below(ks[i], pre, es[0].key[..pre]) {
      var j := KeepMember(es, es, i);
    }
  }

  lemma NibbleInPrefix(a: seq<byte>, b: seq<byte>, r: nat, k: nat)
    requires r <= |a| && r <= |b| && a[..r] == b[..r]
    ensures k < r ==> a[k] == b[k]
  {
    if k < r { assert a[k] == a[..r][k] && b[k] == b[..r][k]; }
  }

  /** A range splits at its prefix exactly when a key ends there or two keys diverge there. */
  lemma SplitsWhen(es: seq<Entry>, pre: nat)
    requires Range(es, pre) && |es| >= 2
    ensures pre <= |es[0].key|
    ensures Splits(es, pre) <==> |es[0].key| == pre || Diverges(es, es[0].key[..pre])
  {
    RangeKeys(es, pre);
    if Splits(es, pre) {
      if |es[0].key| > pre { NoFirstDiverges(es, pre); }
    }
    hide Range;
    AllShare(es, pre, |es|, 0);
    if Diverges(es, es[0].key[..pre]) {
      var i, j := DivergesWitness(es, es[0].key[..pre]);
      AllShare(es, pre, |es|, i);
      AllShare(es, pre, |es|, j);
      var r := SharedPre(es, pre, |es|);
      hide SharedPre;
      NibbleInPrefix(es[0].key, es[i].key, r, pre);
      NibbleInPrefix(es[0].key, es[j].key, r, pre);
    }
  }

  lemma Within(es: seq<Entry>, n: nat, i: nat) returns (j: nat)
    requires n <= |es| && i < |Keep(es, es)|
    ensures Keep(es, es) == Keep(es[..n], es) + Keep(es[n..], es)
    ensures j < |es| && Keep(es, es)[i] == es[j] && (i < |Keep(es[..n], es)| <==> j < n)
  {
    assert es == es[..n] + es[n..];
    KeepAppend(es[..n], es[n..], es);
    hide Keep;
    if i < |Keep(es[..n], es)| {
      j := KeepMember(es[..n], es, i);
    } else {
      j := KeepMember(es[n..], es, i - |Keep(es[..n], es)|);
      j := j + n;
    }
  }

  /** The slots of the kept entries start after what is kept of the slots before. */
  lemma LoOfKeep(es: seq<Entry>, pre: nat, v: nat)
    requires Range(es, pre)
    ensures Lo(Keep(es, es), pre, v) == |Keep(es[..Lo(es, pre, v)], es)| <= |Keep(es, es)|
  {
    hide Keep, Lo, Range;
    KeepRange(es, pre);
    var ks, n := Keep(es, es), Lo(es, pre, v);
    var m := |Keep(es[..n], es)|;
    var lo := Lo(ks, pre, v);
    KeepMiddle(es, 0, n);
    if lo < m {
      var j := Within(es, n, lo);
      LoExact(ks, pre, v, lo);
      LoExact(es, pre, v, j);
    } else if m < lo {
      var j := Within(es, n, m);
      LoExact(ks, pre, v, m);
      LoExact(es, pre, v, j);
    }
  }

  lemma KeepMiddle(es: seq<Entry>, a: nat, b: nat)
    requires a <= b <= |es|
    ensures var ks := Keep(es, es);
            var m, n := |Keep(es[..a], es)|, |Keep(es[..b], es)|;
            m <= n <= |ks| && ks[m..n] == Keep(es[a..b], es)
  {
    hide Keep;
    assert es == es[..b] + es[b..] && es[..b] == es[..a] + es[a..b];
    KeepAppend(es[..b], es[b..], es);
    KeepAppend(es[..a], es[a..b], es);
  }

  lemma SlotOfKeep(es: seq<Entry>, pre: nat, v: nat)
    requires Range(es, pre)
    ensures Slot(Keep(es, es), pre, v) == Keep(Slot(es, pre, v), Slot(es, pre, v))
  {
    hide Keep, Lo, Range;
    SlotsTile(es, pre, v);
    LoOfKeep(es, pre, v);
    LoOfKeep(es, pre, v + 1);
    KeepOfSlot(es, pre, v);
    KeepMiddle(es, Lo(es, pre, v), Lo(es, pre, v + 1));
  }

  lemma {:induction false} SharedPreJump(es: seq<Entry>, pre: nat, m: nat, n: nat)
    requires pre <= m && Range(es, m) && 2 <= n <= |es|
    requires forall i :: 0 <= i < |es| ==> m <= |es[i].key|
    ensures SharedPre(es, pre, n) == SharedPre(es, m, n)
  {
    CommonJump(es, pre, m, n - 1);
    hide Common, Range;
    if n > 2 { SharedPreJump(es, pre, m, n - 1); }
  }

  lemma {:induction false} CommonJump(es: seq<Entry>, pre: nat, m: nat, i: nat)
    requires pre <= m && Range(es, m) && i < |es|
    requires m <= |es[0].key| && m <= |es[i].key|
    ensures Common(es[0].key, es[i].key, pre) == Common(es[0].key, es[i].key, m)
    decreases m - pre
  {
    hide Less, IsNibbles;
    if pre < m {
      CommonJump(es, pre + 1, m, i);
      assert Below(es[i], m, es[0].key[..m]);
      assert es[i].key[..m][pre] == es[0].key[..m][pre];
    }
  }

  /** Building from the kept entries gives the same tree. */
  lemma {:induction false} KeepBuild(es: seq<Entry>, pre: nat)
    requires Range(es, pre)
    ensures Range(Keep(es, es), pre) && Build(Keep(es, es), pre) == Build(es, pre)
    decreases |es|, if es == [] then 0 else |es[0].key| - pre, 1
  {
    KeepRange(es, pre);
    hide Build, Keep, Range;
    if |es| <= 1 {
      KeepSingle(es);
    } else if Splits(es, pre) {
      KeepBuildBranch(es, pre);
    } else {
      KeepBuildExt(es, pre);
    }
  }

  lemma {:induction false} KeepBuildExt(es: seq<Entry>, pre: nat)
    requires Range(es, pre) && |es| >= 2 && !Splits(es, pre)
    ensures Range(Keep(es, es), pre) && Build(Keep(es, es), pre) == Build(es, pre)
    decreases |es|, |es[0].key| - pre, 0
  {
    var m := ExtThenSplits(es, pre);
    KeepRange(es, pre);
    KeepRange(es, m);
    KeepBuild(es, m);
    BuildBranch(es, m);
    var ks := Keep(es, es);
    hide Keep, Slot;
    BranchSplits(ks, m);
    RangeKeys(ks, m);
    SharedPreJump(ks, pre, m, |ks|);
    hide Range;
    var m' := BuildExtTo(ks, pre);
    assert ks[0].key[pre..m] == ks[0].key[..m][pre..] && es[0].key[pre..m] == es[0].key[..m][pre..];
  }

  lemma ExtThenSplits(es: seq<Entry>, pre: nat) returns (m: nat)
    requires Range(es, pre) && |es| >= 2 && !Splits(es, pre)
    ensures pre < m <= |es[0].key| && Range(es, m) && Splits(es, m)
    ensures Build(es, pre) == Ext(es[0].key[pre..m], Build(es, m))
  {
    m := BuildExt(es, pre);
    hide Build;
    RangeKeys(es, pre);
    RangeKeys(es, m);
    LongerRange(es, pre);
    m := SharedPre(es, pre, |es|);
    RangeKeys(es, m);
    SharedPreJump(es, pre, m, |es|);
  }

  lemma BuildExtTo(es: seq<Entry>, pre: nat) returns (m: nat)
    requires Range(es, pre) && |es| >= 2
    requires forall i :: 0 <= i < |es| ==> pre <= |es[i].key|
    requires SharedPre(es, pre, |es|) > pre
    ensures m == SharedPre(es, pre, |es|) && m <= |es[0].key| && Range(es, m)
    ensures Build(es, pre) == Ext(es[0].key[pre..m], Build(es, m))
  {
    LongerRange(es, pre);
    m := SharedPre(es, pre, |es|);
  }

  lemma BranchSplits(es: seq<Entry>, pre: nat)
    requires Range(es, pre) && Build(es, pre).Branch?
    ensures |es| >= 2 && Splits(es, pre)
  {
    if |es| <= 1 {
      BuildSmall(es, pre);
    } else if !Splits(es, pre) {
      var _ := BuildExt(es, pre);
    }
  }

  /** Each slot of `ks` becomes the same subtree as that slot of `es`. */
  ghost predicate SlotsAgree(es: seq<Entry>, ks: seq<Entry>, pre: nat) {
    forall v :: 0 <= v < 16 ==> SlotAgrees(es, ks, pre, v)
  }

  ghost predicate SlotAgrees(es: seq<Entry>, ks: seq<Entry>, pre: nat, v: nat) {
    && Range(Slot(es, pre, v), pre + 1)
    && Range(Slot(ks, pre, v), pre + 1)
    && Build(Slot(ks, pre, v), pre + 1) == Build(Slot(es, pre, v), pre + 1)
  }

  lemma {:induction false} KeepBuildBranch(es: seq<Entry>, pre: nat)
    requires Range(es, pre) && Splits(es, pre)
    ensures Range(Keep(es, es), pre) && Build(Keep(es, es), pre) == Build(es, pre)
    decreases |es|, |es[0].key| - pre, 0
  {
    KeepRange(es, pre);
    BuildBranch(es, pre);
    hide Keep, Slot, Lo, Build, Range, Splits;
    forall v | 0 <= v < 16 ensures SlotAgrees(es, Keep(es, es), pre, v) {
      KeepBuild(Slot(es, pre, v), pre + 1);
      SlotOfKeep(es, pre, v);
    }
    KeepSplits(es, pre);
    SameBranch(es, Keep(es, es), pre);
  }

  lemma SameBranch(es: seq<Entry>, ks: seq<Entry>, pre: nat)
    requires Range(es, pre) && Splits(es, pre) && Range(ks, pre) && Splits(ks, pre)
    requires SlotsAgree(es, ks, pre) && ks == Keep(es, es)
    ensures Build(ks, pre) == Build(es, pre)
  {
    KeepFirst(es, pre);
    BuildBranch(es, pre);
    BuildBranch(ks, pre);
    hide Keep, Slot, Build, Range, Splits;
    var cs, ds := Build(es, pre).children, Build(ks, pre).children;
    forall v | 0 <= v < 16 ensures cs[v] == ds[v] {
      assert SlotAgrees(es, ks, pre, v);
    }
  }

  lemma KeepFirst(es: seq<Entry>, pre: nat)
    requires Range(es, pre) && Splits(es, pre) && Keep(es, es) != []
    ensures var ks := Keep(es, es);
            (if |ks[0].key| == pre then ks[0].value else []) == (if |es[0].key| == pre then es[0].value else [])
  {
    KeepHead(es);
    var j := KeepMember(es, es, 0);
    if j > 0 { LaterKeysLonger(es, pre, j); }
  }

  /** The kept entries still split at the prefix. */
  lemma KeepSplits(es: seq<Entry>, pre: nat)
    requires Range(es, pre) && Splits(es, pre)
    requires SlotsAgree(es, Keep(es, es), pre)
    ensures |Keep(es, es)| >= 2 && Range(Keep(es, es), pre) && Splits(Keep(es, es), pre)
  {
    KeepRange(es, pre);
    var ks, k := Keep(es, es), es[0].key[..pre];
    hide Build, Slot, Splits;
    SplitsWhen(es, pre);
    if Diverges(es, k) {
      var i, j := DivergesWitness(es, k);
      var i' := KeptNeighbour(es, pre, i);
      var j' := KeptNeighbour(es, pre, j);
      hide Keep;
      DivergesAmong(ks, i', j', k);
    } else {
      var i' := KeptNeighbour(es, pre, 1);
      KeepHead(es);
      hide Keep;
    }
    SplitsWhen(ks, pre);
  }

  /** Every slot in use keeps an entry. */
  lemma KeptNeighbour(es: seq<Entry>, pre: nat, i: nat) returns (j: nat)
    requires Range(es, pre) && Range(Keep(es, es), pre) && i < |es|
    requires |es[i].key| > pre || i > 0
    requires SlotsAgree(es, Keep(es, es), pre)
    ensures j < |Keep(es, es)| && pre <= |es[0].key| && es[0].key[..pre] < Keep(es, es)[j].key
    ensures |es[i].key| > pre && Keep(es, es)[j].key[pre] == es[i].key[pre]
  {
    if i > 0 { LaterKeysLonger(es, pre, i); }
    RangeKeys(es, pre);
    var v := MemberSlot(es, pre, i);
    assert SlotAgrees(es, Keep(es, es), pre, v);
    j := SlotMember(Keep(es, es), pre, v);
    KeepRange(es, pre);
  }

  /** Two maps become the same tree exactly when they differ at most in hidden entries. */
  lemma SameTree(a: seq<Entry>, b: seq<Entry>)
    requires Range(a, 0) && Range(b, 0)
    ensures Build(a, 0) == Build(b, 0) <==> Keep(a, a) == Keep(b, b)
  {
    KeepBuild(a, 0);
    KeepBuild(b, 0);
    EntriesBuild(a, 0);
    EntriesBuild(b, 0);
    BuildNull(a, 0);
    BuildNull(b, 0);
    hide Build, Keep, Range;
    if a != [] && b != [] { assert a[0].key[..0] == b[0].key[..0]; }
    if a == [] { KeepNothing(a, a); }
    if b == [] { KeepNothing(b, b); }
  }
}
