/**
 * The stack of repositories as plain values: the caches, bottom first, and the worlds seen
 * with them laid one over the other.
 */
module Layers {
  import opened Bytes
  import opened Sums
  import opened Ledger
  import opened Disk
  import opened Repositories

  ghost function Caches(chain: seq<Repository>): (cs: seq<World>)
    reads chain`cacheAccount, chain`cacheProducer, chain`cacheTransaction
    ensures |cs| == |chain|
  {
    if chain == [] then [] else Caches(chain[..|chain| - 1]) + [chain[|chain| - 1].Cache()]
  }

  /** The worlds seen with caches laid one over the other. */
  function Layered(base: World, cs: seq<World>): (vs: seq<World>)
    ensures |vs| == |cs| + 1
  {
    if cs == [] then [base] else
      var below := Layered(base, cs[..|cs| - 1]);
      below + [Over(below[|cs| - 1], cs[|cs| - 1])]
  }

  lemma {:induction false} ViewsAreLayers(chain: seq<Repository>, db: Database)
    ensures Views(chain, db) == Layered(db.store.world, Caches(chain))
  {
    if chain != [] {
      ViewsAreLayers(chain[..|chain| - 1], db);
      var cs := Caches(chain);
      assert cs[..|cs| - 1] == Caches(chain[..|chain| - 1]);
    }
  }

  lemma {:induction false} CachesFrom(chain: seq<Repository>)
    requires chain != []
    ensures Caches(chain[1..]) == Caches(chain)[1..] && Caches(chain)[0] == chain[0].Cache()
  {
    if |chain| > 1 {
      var below := chain[..|chain| - 1];
      CachesFrom(below);
      assert chain[1..][..|chain| - 2] == below[1..];
    } else {
      assert chain[1..] == [] && chain[..0] == [];
    }
  }

  /** Laying the bottom cache on the base for good changes nothing above it. */
  lemma {:induction false} LayersDetach(base: World, cs: seq<World>)
    requires cs != []
    ensures Layered(base, cs)[1..] == Layered(Over(base, cs[0]), cs[1..])
  {
    hide Over;
    var n := |cs| - 1;
    if n == 0 {
      assert cs[..0] == [] && cs[1..] == [];
    } else {
      var below := cs[..n];
      LayersDetach(base, below);
      assert cs[1..][..n - 1] == below[1..];
      assert Layered(base, below)[n] == Layered(base, below)[1..][n - 1];
    }
  }

  function Prev(chain: seq<Repository>, i: nat): Repository?
    requires i < |chain|
  {
    if i == 0 then null else chain[i - 1]
  }

  /** Only the bottom repository lacks a parent, and every other one has the one below it. */
  ghost predicate ParentsBelow(chain: seq<Repository>, db: Database)
    reads chain`parent
  {
    && (forall i :: 0 <= i < |chain| ==> chain[i].dbc == db && chain[i].parent == Prev(chain, i))
    && (forall i, j :: 0 <= i < j < |chain| ==> chain[i] != chain[j])
  }

  lemma {:induction false} LinkedAt(chain: seq<Repository>, db: Database, i: nat)
    requires Linked(chain, db) && i < |chain|
    ensures chain[i].dbc == db && chain[i].parent == Prev(chain, i) && chain[i] !in chain[..i]
  {
    var below := chain[..|chain| - 1];
    if i < |below| {
      LinkedAt(below, db, i);
      assert below[..i] == chain[..i];
    }
  }

  lemma LinkedParents(chain: seq<Repository>, db: Database)
    requires Linked(chain, db)
    ensures ParentsBelow(chain, db)
  {
    hide Linked;
    forall i | 0 <= i < |chain| ensures chain[i].dbc == db && chain[i].parent == Prev(chain, i) {
      LinkedAt(chain, db, i);
    }
    forall i, j | 0 <= i < j < |chain| ensures chain[i] != chain[j] {
      LinkedAt(chain, db, j);
      assert chain[..j][i] == chain[i];
    }
  }

  lemma {:induction false} ParentsLinked(chain: seq<Repository>, db: Database)
    requires ParentsBelow(chain, db)
    ensures Linked(chain, db)
  {
    if chain != [] {
      var below := chain[..|chain| - 1];
      forall i | 0 <= i < |below| ensures below[i].dbc == db && below[i].parent == Prev(below, i) {
        assert below[i] == chain[i] && Prev(below, i) == Prev(chain, i);
      }
      ParentsLinked(below, db);
      assert chain[|chain| - 1].parent == Prev(chain, |chain| - 1);
    }
  }

  lemma {:induction false} CachesAt(chain: seq<Repository>, i: nat)
    requires i < |chain|
    ensures Caches(chain)[i] == chain[i].Cache()
  {
    if i < |chain| - 1 {
      CachesAt(chain[..|chain| - 1], i);
    }
  }

  lemma CachesAre(chain: seq<Repository>)
    ensures forall i :: 0 <= i < |chain| ==> Caches(chain)[i] == chain[i].Cache()
  {
    forall i | 0 <= i < |chain| ensures Caches(chain)[i] == chain[i].Cache() {
      CachesAt(chain, i);
    }
  }

  lemma CachesSlice(chain: seq<Repository>, k: nat)
    requires k <= |chain|
    ensures Caches(chain)[k..] == Caches(chain[k..])
  {
    hide Caches;
    CachesAre(chain);
    CachesAre(chain[k..]);
  }

  /** Every repository but the bottom one has the one below it as parent. */
  ghost predicate LinkedAbove(chain: seq<Repository>, db: Database)
    reads chain`parent
  {
    && (forall i :: 0 <= i < |chain| ==> chain[i].dbc == db && (i > 0 ==> chain[i].parent == Prev(chain, i)))
    && (forall i, j :: 0 <= i < j < |chain| ==> chain[i] != chain[j])
  }

  /** The upper part of a stack. */
  lemma LinkedSlice(chain: seq<Repository>, db: Database, k: nat)
    requires Linked(chain, db) && k <= |chain|
    ensures LinkedAbove(chain[k..], db)
  {
    hide Linked;
    LinkedParents(chain, db);
    var rest := chain[k..];
    forall i | 0 <= i < |rest| ensures rest[i].dbc == db && (i > 0 ==> rest[i].parent == Prev(rest, i)) {
      assert rest[i] == chain[k + i];
      assert i > 0 ==> Prev(chain, k + i) == Prev(rest, i);
    }
  }

  lemma LinkedAgain(chain: seq<Repository>, db: Database)
    requires LinkedAbove(chain, db) && (chain != [] ==> chain[0].parent == null)
    ensures Linked(chain, db)
  {
    hide Linked;
    ParentsLinked(chain, db);
  }

  /** A repository with an empty cache sees what the one below it sees. */
  lemma EmptyCacheView(chain: seq<Repository>, db: Database, below: seq<Repository>, r: Repository)
    requires chain == below + [r] && r.Cache() == World(map[], map[], map[])
    ensures Views(chain, db) == Views(below, db) + [Top(below, db)]
  {
    assert chain[..|below|] == below;
    var w := Top(below, db);
    assert w.accounts + map[] == w.accounts && w.producers + map[] == w.producers && w.transactions + map[] == w.transactions;
  }

  lemma LinkedSnoc(chain: seq<Repository>, db: Database, below: seq<Repository>, r: Repository)
    requires chain == below + [r] && Linked(below, db) && r !in below && r.dbc == db
    requires r.parent == if below == [] then null else below[|below| - 1]
    ensures Linked(chain, db)
  {
    assert chain[..|below|] == below;
  }

  // -------------------------------------------------------------------- laws of layers

  lemma {:induction false} LayeredPrefix(base: World, cs: seq<World>, k: nat)
    requires k <= |cs|
    ensures Layered(base, cs[..k]) == Layered(base, cs)[..k + 1]
  {
    hide Over;
    var n := |cs|;
    if k == n {
      assert cs[..k] == cs;
    } else {
      LayeredPrefix(base, cs[..n - 1], k);
      assert cs[..n - 1][..k] == cs[..k];
    }
  }

  /** What is seen from layer k up depends on what layer k sees and on the caches above it. */
  lemma {:induction false} LayeredFrom(base: World, cs: seq<World>, k: nat)
    requires k <= |cs|
    ensures Layered(base, cs)[k..] == Layered(Layered(base, cs)[k], cs[k..])
  {
    hide Over;
    var n := |cs|;
    if k == n {
      assert cs[k..] == [];
    } else {
      var below := cs[..n - 1];
      LayeredFrom(base, below, k);
      assert cs[k..][..n - 1 - k] == below[k..];
      assert Layered(base, below)[n - 1] == Layered(base, below)[k..][n - 1 - k];
    }
  }

  lemma OverTwice(w: World, c: World)
    ensures Over(Over(w, c), c) == Over(w, c)
  {
    assert w.accounts + c.accounts + c.accounts == w.accounts + c.accounts;
    assert w.producers + c.producers + c.producers == w.producers + c.producers;
    assert w.transactions + c.transactions + c.transactions == w.transactions + c.transactions;
  }

  /** Copying a cache into the one below it changes what that one sees and nothing above. */
  lemma CommitIntoParent(base: World, cs: seq<World>, j: nat)
    requires j + 1 < |cs|
    ensures var ds := cs[j := Over(cs[j], cs[j + 1])];
            Layered(base, ds)[j + 2..] == Layered(base, cs)[j + 2..]
  {
    hide Over;
    var ds := cs[j := Over(cs[j], cs[j + 1])];
    var a, b := Layered(base, cs), Layered(base, ds);
    LayeredPrefix(base, cs, j);
    LayeredPrefix(base, ds, j);
    assert cs[..j] == ds[..j];
    assert a[j] == a[..j + 1][j] == b[..j + 1][j] == b[j];
    LayerAt(base, cs, j);
    LayerAt(base, cs, j + 1);
    LayerAt(base, ds, j);
    LayerAt(base, ds, j + 1);
    CommitMovesView(a[j], cs[j], cs[j + 1]);
    OverTwice(a[j + 1], cs[j + 1]);
    assert a[j + 2] == b[j + 2];
    LayeredFrom(base, cs, j + 2);
    LayeredFrom(base, ds, j + 2);
    assert cs[j + 2..] == ds[j + 2..];
  }

  /** Laying the bottom cache on the base changes what the bottom sees and nothing above, even if the bottom keeps its cache. */
  lemma CommitIntoDatabase(base: World, cs: seq<World>)
    requires cs != []
    ensures Layered(base, cs)[1] == Over(base, cs[0])
    ensures Layered(Over(base, cs[0]), cs)[2..] == Layered(base, cs)[2..]
  {
    hide Over;
    LayerAt(base, cs, 0);
    LayerAt(Over(base, cs[0]), cs, 0);
    LayeredBase(base, cs);
    LayeredBase(Over(base, cs[0]), cs);
    OverTwice(base, cs[0]);
    var a, b := Layered(base, cs), Layered(Over(base, cs[0]), cs);
    LayeredFrom(base, cs, 1);
    LayeredFrom(Over(base, cs[0]), cs, 1);
    assert a[1..] == b[1..];
    assert a[2..] == a[1..][1..] && b[2..] == b[1..][1..];
  }

  lemma {:induction false} LayeredBase(base: World, cs: seq<World>)
    ensures Layered(base, cs)[0] == base
  {
    if cs != [] {
      LayeredBase(base, cs[..|cs| - 1]);
    }
  }

  lemma LayerAt(base: World, cs: seq<World>, i: nat)
    requires i < |cs|
    ensures Layered(base, cs)[i + 1] == Over(Layered(base, cs)[i], cs[i])
  {
    hide Over;
    LayeredPrefix(base, cs, i + 1);
    LayeredPrefix(base, cs, i);
    assert cs[..i + 1][..i] == cs[..i];
    assert Layered(base, cs)[..i + 2][i + 1] == Layered(base, cs)[i + 1];
    assert Layered(base, cs)[..i + 1][i] == Layered(base, cs)[i];
  }

  // ----------------------------------------------------- when a difference is covered

  /** Two maps agree but for keys that a later layer sets. */
  ghost predicate Agree<V>(a: map<nat, V>, b: map<nat, V>, keys: set<nat>) {
    forall k :: k !in keys ==> Lookup(a, k) == Lookup(b, k)
  }

  lemma MergeAgree<V>(a: map<nat, V>, b: map<nat, V>, c: map<nat, V>, keys: set<nat>)
    ensures Agree(a, b, c.Keys + keys) <==> Agree(a + c, b + c, keys)
  {
    forall k: nat ensures Lookup(a + c, k) == Lookup(b + c, k) <==> k in c || Lookup(a, k) == Lookup(b, k) { }
    if Agree(a + c, b + c, keys) {
      forall k | k !in c.Keys + keys ensures Lookup(a, k) == Lookup(b, k) {
        assert Lookup(a + c, k) == Lookup(b + c, k);
      }
    }
  }

  /** The keys that some layer sets. */
  function KeysOf(cs: seq<World>): (set<Address>, set<Address>, set<TxId>) {
    if cs == [] then ({}, {}, {}) else
      var (a, p, t) := KeysOf(cs[1..]);
      (cs[0].accounts.Keys + a, cs[0].producers.Keys + p, cs[0].transactions.Keys + t)
  }

  /** Wherever two worlds differ, some layer of `cs` sets the entry anew. */
  ghost predicate Covered(v: World, w: World, cs: seq<World>) {
    var (a, p, t) := KeysOf(cs);
    Agree(v.accounts, w.accounts, a) && Agree(v.producers, w.producers, p) && Agree(v.transactions, w.transactions, t)
  }

  lemma AgreeAll<V>(a: map<nat, V>, b: map<nat, V>)
    ensures Agree(a, b, {}) <==> a == b
  {
    if Agree(a, b, {}) {
      forall k: nat ensures (k in a <==> k in b) && (k in a ==> a[k] == b[k]) {
        assert Lookup(a, k) == Lookup(b, k);
      }
    }
  }

  lemma CoveredNone(v: World, w: World)
    ensures Covered(v, w, []) <==> v == w
  {
    hide Agree;
    AgreeAll(v.accounts, w.accounts);
    AgreeAll(v.producers, w.producers);
    AgreeAll(v.transactions, w.transactions);
  }

  lemma CoveredStep(v: World, w: World, cs: seq<World>)
    requires cs != []
    ensures Covered(v, w, cs) <==> Covered(Over(v, cs[0]), Over(w, cs[0]), cs[1..])
  {
    hide Agree;
    var (a, p, t) := KeysOf(cs[1..]);
    MergeAgree(v.accounts, w.accounts, cs[0].accounts, a);
    MergeAgree(v.producers, w.producers, cs[0].producers, p);
    MergeAgree(v.transactions, w.transactions, cs[0].transactions, t);
  }

  /** The same caches over two worlds give the same top if and only if they cover every difference. */
  lemma {:induction false} CoveredExact(v: World, w: World, cs: seq<World>)
    ensures Layered(v, cs)[|cs|] == Layered(w, cs)[|cs|] <==> Covered(v, w, cs)
    decreases |cs|
  {
    hide Over, Covered;
    if cs == [] {
      CoveredNone(v, w);
    } else {
      CoveredStep(v, w, cs);
      LayersDetach(v, cs);
      LayersDetach(w, cs);
      hide Layered;
      CoveredExact(Over(v, cs[0]), Over(w, cs[0]), cs[1..]);
      assert Layered(v, cs)[|cs|] == Layered(v, cs)[1..][|cs| - 1];
      assert Layered(w, cs)[|cs|] == Layered(w, cs)[1..][|cs| - 1];
    }
  }

  /** From layer k up, the same is seen over two worlds if and only if the layers below k cover every difference. */
  lemma CoveredFrom(v: World, w: World, cs: seq<World>, k: nat)
    requires k <= |cs|
    ensures Layered(v, cs)[k..] == Layered(w, cs)[k..] <==> Covered(v, w, cs[..k])
  {
    hide Over, Covered, Layered;
    LayeredFrom(v, cs, k);
    LayeredFrom(w, cs, k);
    LayeredPrefix(v, cs, k);
    LayeredPrefix(w, cs, k);
    CoveredExact(v, w, cs[..k]);
    assert Layered(v, cs)[k..][0] == Layered(v, cs)[k] == Layered(v, cs)[..k + 1][k];
    assert Layered(w, cs)[k..][0] == Layered(w, cs)[k] == Layered(w, cs)[..k + 1][k];
  }
}
