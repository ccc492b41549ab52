/** The specification every mining engine is held to: transactions, the utility, transaction-weighted
    utility and support of an itemset, high-utility itemsets, and what it means for an
    output to list a family of itemsets exactly. */
module Huim {

  type ItemId = nat
  type ItemSet = set<ItemId>

  datatype ItemEntry = ItemEntry(item: ItemId, utility: int)

  datatype Transaction = Transaction(tid: nat, tu: int, items: seq<ItemEntry>)

  /** One line of engine output: an itemset in the order the engine built it, and its utility. */
  datatype Hui = Hui(itemset: seq<ItemId>, utility: int)

  type Database = seq<Transaction>

  const I64_MAX: int := 0x7FFF_FFFF_FFFF_FFFF
  const U32_MAX: int := 0xFFFF_FFFF

  predicate InI64(v: int) {
    -I64_MAX - 1 <= v <= I64_MAX
  }

  function Elems<T>(s: seq<T>): set<T> {
    set x | x in s
  }

  lemma ElemsEmpty<T>(s: seq<T>)
    ensures Elems(s) == {} ==> s == []
  {
    if s != [] { assert s[0] in Elems(s); }
  }

  ghost predicate Distinct<T>(s: seq<T>) {
    forall i, j | 0 <= i < j < |s| :: s[i] != s[j]
  }

  function ItemsOf(es: seq<ItemEntry>): ItemSet {
    set e | e in es :: e.item
  }

  ghost predicate DistinctItems(es: seq<ItemEntry>) {
    forall i, j | 0 <= i < j < |es| :: es[i].item != es[j].item
  }

  ghost predicate NonNegative(es: seq<ItemEntry>) {
    forall k | 0 <= k < |es| :: es[k].utility >= 0
  }

  /** The utility a list of entries gives to the items of X. */
  ghost function UtilityIn(es: seq<ItemEntry>, X: ItemSet): int {
    if es == [] then 0
    else
      var e := es[|es| - 1];
      UtilityIn(es[..|es| - 1], X) + (if e.item in X then e.utility else 0)
  }

  /** What the miners assume of a transaction: distinct items, no negative utility, and a
      transaction utility that covers its items. */
  ghost predicate ValidTransaction(t: Transaction) {
    && DistinctItems(t.items)
    && NonNegative(t.items)
    && UtilityIn(t.items, ItemsOf(t.items)) <= t.tu
  }

  ghost predicate ValidDatabase(db: Database) {
    && (forall k | 0 <= k < |db| :: ValidTransaction(db[k]))
    && (forall i, j | 0 <= i < j < |db| :: db[i].tid < db[j].tid)
  }

  /** Over the transactions that contain X, the utility of the items in S. */
  ghost function CoverSum(db: Database, X: ItemSet, S: ItemSet): int {
    if db == [] then 0
    else
      var t := db[|db| - 1];
      CoverSum(db[..|db| - 1], X, S) + (if X <= ItemsOf(t.items) then UtilityIn(t.items, S) else 0)
  }

  /** u(X). */
  ghost function Utility(db: Database, X: ItemSet): int {
    CoverSum(db, X, X)
  }

  /** TWU(X). */
  ghost function Twu(db: Database, X: ItemSet): int {
    if db == [] then 0
    else
      var t := db[|db| - 1];
      Twu(db[..|db| - 1], X) + (if X <= ItemsOf(t.items) then t.tu else 0)
  }

  ghost function TotalTu(db: Database): int {
    Twu(db, {})
  }

  /** The positions of the transactions that contain X. */
  ghost function Support(db: Database, X: ItemSet): set<nat> {
    set k: nat | k < |db| && X <= ItemsOf(db[k].items)
  }

  ghost predicate Supported(db: Database, X: ItemSet) {
    exists k :: 0 <= k < |db| && X <= ItemsOf(db[k].items)
  }

  ghost predicate IsHui(db: Database, min: int, X: ItemSet) {
    X != {} && Supported(db, X) && Utility(db, X) >= min
  }

  ghost function Huis(db: Database, min: int): iset<ItemSet> {
    iset X: ItemSet | IsHui(db, min, X)
  }

  // ----- utility inside one transaction

  lemma {:induction false} UtilityInAdditive(es: seq<ItemEntry>, X: ItemSet, Y: ItemSet)
    requires X !! Y
    ensures UtilityIn(es, X + Y) == UtilityIn(es, X) + UtilityIn(es, Y)
  {
    if es != [] { UtilityInAdditive(es[..|es| - 1], X, Y); }
  }

  lemma {:induction false} UtilityInNonNegative(es: seq<ItemEntry>, X: ItemSet)
    requires NonNegative(es)
    ensures UtilityIn(es, X) >= 0
  {
    if es != [] { UtilityInNonNegative(es[..|es| - 1], X); }
  }

  lemma UtilityInMonotone(es: seq<ItemEntry>, X: ItemSet, Y: ItemSet)
    requires NonNegative(es) && X <= Y
    ensures 0 <= UtilityIn(es, X) <= UtilityIn(es, Y)
  {
    UtilityInAdditive(es, X, Y - X);
    assert X + (Y - X) == Y;
    UtilityInNonNegative(es, X);
    UtilityInNonNegative(es, Y - X);
  }

  /** Only the items present in the entries matter. */
  lemma {:induction false} UtilityInRestrict(es: seq<ItemEntry>, X: ItemSet, Y: ItemSet)
    requires X * ItemsOf(es) == Y * ItemsOf(es)
    ensures UtilityIn(es, X) == UtilityIn(es, Y)
  {
    if es != [] {
      var init, e := es[..|es| - 1], es[|es| - 1];
      assert e in es && forall x :: x in init ==> x in es;
      assert e.item in ItemsOf(es) && ItemsOf(init) <= ItemsOf(es);
      assert e.item in X <==> e.item in X * ItemsOf(es);
      assert e.item in Y <==> e.item in Y * ItemsOf(es);
      assert X * ItemsOf(init) == X * ItemsOf(es) * ItemsOf(init);
      assert Y * ItemsOf(init) == Y * ItemsOf(es) * ItemsOf(init);
      UtilityInRestrict(init, X, Y);
    }
  }

  lemma {:induction false} UtilityInConcat(a: seq<ItemEntry>, b: seq<ItemEntry>, X: ItemSet)
    ensures UtilityIn(a + b, X) == UtilityIn(a, X) + UtilityIn(b, X)
  {
    if b == [] {
      assert a + b == a;
    } else {
      assert (a + b)[..|a + b| - 1] == a + b[..|b| - 1];
      UtilityInConcat(a, b[..|b| - 1], X);
    }
  }

  lemma UtilityInCons(es: seq<ItemEntry>, X: ItemSet)
    requires es != []
    ensures UtilityIn(es, X) == (if es[0].item in X then es[0].utility else 0) + UtilityIn(es[1..], X)
  {
    assert es == [es[0]] + es[1..];
    UtilityInConcat([es[0]], es[1..], X);
    assert [es[0]][..0] == [];
  }

  lemma {:induction false} UtilityInAbsent(es: seq<ItemEntry>, X: ItemSet)
    requires X !! ItemsOf(es)
    ensures UtilityIn(es, X) == 0
  {
    UtilityInRestrict(es, X, {});
    UtilityInEmpty(es);
  }

  lemma {:induction false} UtilityInEmpty(es: seq<ItemEntry>)
    ensures UtilityIn(es, {}) == 0
  {
    if es != [] { UtilityInEmpty(es[..|es| - 1]); }
  }

  lemma UtilityInSingle(es: seq<ItemEntry>, k: nat)
    requires k < |es| && DistinctItems(es)
    ensures UtilityIn(es, {es[k].item}) == es[k].utility
  {
    var x := es[k].item;
    assert es == es[..k] + ([es[k]] + es[k + 1..]);
    UtilityInConcat(es[..k], [es[k]] + es[k + 1..], {x});
    UtilityInConcat([es[k]], es[k + 1..], {x});
    UtilityInAbsent(es[..k], {x});
    UtilityInAbsent(es[k + 1..], {x});
    assert [es[k]][..0] == [];
    assert UtilityIn([es[k]], {x}) == es[k].utility;
  }

  lemma {:induction false} DistinctCount(s: seq<ItemId>)
    requires Distinct(s)
    ensures |Elems(s)| == |s|
  {
    if s != [] {
      var n := |s| - 1;
      DistinctCount(s[..n]);
      assert s == s[..n] + [s[n]];
      assert Elems(s) == Elems(s[..n]) + {s[n]};
      assert s[n] !in s[..n];
    }
  }

  /** Where a permutation keeps the last element, and what is left once it is taken out. */
  lemma PermutedLast<T>(a: seq<T>, b: seq<T>) returns (k: nat)
    requires a != [] && multiset(a) == multiset(b)
    ensures k < |b| && b[k] == a[|a| - 1]
    ensures b == b[..k] + [b[k]] + b[k + 1..]
    ensures multiset(b[..k] + b[k + 1..]) == multiset(a[..|a| - 1])
  {
    var n, e := |a| - 1, a[|a| - 1];
    assert a == a[..n] + [e];
    assert e in multiset(b);
    k :| 0 <= k < |b| && b[k] == e;
    assert b == b[..k] + [e] + b[k + 1..];
    assert multiset(b) == multiset(b[..k]) + multiset{e} + multiset(b[k + 1..]);
    assert multiset(b[..k] + b[k + 1..]) == multiset(b[..k]) + multiset(b[k + 1..]);
    var rest, init := multiset(b[..k] + b[k + 1..]), multiset(a[..n]);
    assert rest + multiset{e} == init + multiset{e};
    forall x ensures rest[x] == init[x] {
      assert (rest + multiset{e})[x] == (init + multiset{e})[x];
    }
    assert a[..|a| - 1] == a[..n];
  }

  lemma PermutedEmpty<T>(a: seq<T>, b: seq<T>)
    requires a == [] && multiset(a) == multiset(b)
    ensures b == []
  {
    assert |multiset(b)| == |b|;
  }

  /** Reordering the entries changes nothing. */
  lemma {:induction false} UtilityInPermuted(a: seq<ItemEntry>, b: seq<ItemEntry>, X: ItemSet)
    requires multiset(a) == multiset(b)
    ensures UtilityIn(a, X) == UtilityIn(b, X)
    decreases |a|
  {
    if a == [] {
      PermutedEmpty(a, b);
    } else {
      var k := PermutedLast(a, b);
      UtilityInPermuted(a[..|a| - 1], b[..k] + b[k + 1..], X);
      UtilityInConcat(b[..k], b[k + 1..], X);
      UtilityInConcat(b[..k], [b[k]], X);
      UtilityInConcat(b[..k] + [b[k]], b[k + 1..], X);
      assert [b[k]][..0] == [];
    }
  }

  lemma ItemsOfPermuted(a: seq<ItemEntry>, b: seq<ItemEntry>)
    requires multiset(a) == multiset(b)
    ensures ItemsOf(a) == ItemsOf(b)
  {
    forall e ensures e in a <==> e in b {
      assert e in a <==> e in multiset(a);
      assert e in b <==> e in multiset(b);
    }
  }

  lemma ItemAt(es: seq<ItemEntry>, x: ItemId) returns (k: nat)
    requires x in ItemsOf(es)
    ensures k < |es| && es[k].item == x
  {
    var e :| e in es && e.item == x;
    k :| 0 <= k < |es| && es[k] == e;
  }

  /** All the utility in a list of entries. */
  ghost function TotalOf(es: seq<ItemEntry>): int {
    UtilityIn(es, ItemsOf(es))
  }

  lemma TotalCons(es: seq<ItemEntry>, k: nat)
    requires k < |es|
    ensures TotalOf(es[k..]) == es[k].utility + TotalOf(es[k + 1..])
  {
    var s := es[k..];
    UtilityInCons(s, ItemsOf(s));
    assert s[1..] == es[k + 1..];
    assert s[0] in s;
    assert forall e | e in es[k + 1..] :: e in s;
    UtilityInRestrict(es[k + 1..], ItemsOf(s), ItemsOf(es[k + 1..]));
  }

  lemma TotalSnoc(es: seq<ItemEntry>, k: nat)
    requires k < |es|
    ensures TotalOf(es[..k + 1]) == TotalOf(es[..k]) + es[k].utility
  {
    var s := es[..k + 1];
    assert s[..k] == es[..k] && s[k] in s;
    assert forall e | e in es[..k] :: e in s;
    UtilityInRestrict(es[..k], ItemsOf(s), ItemsOf(es[..k]));
  }

  function ItemIds(es: seq<ItemEntry>): (s: seq<ItemId>)
    ensures |s| == |es| && forall k | 0 <= k < |s| :: s[k] == es[k].item
  {
    seq(|es|, k requires 0 <= k < |es| => es[k].item)
  }

  lemma ItemIdsElems(es: seq<ItemEntry>)
    ensures Elems(ItemIds(es)) == ItemsOf(es)
  {
    forall x ensures x in ItemIds(es) <==> x in ItemsOf(es) {
      if x in ItemIds(es) {
        var k :| 0 <= k < |es| && ItemIds(es)[k] == x;
        assert es[k] in es;
      }
      if x in ItemsOf(es) {
        var k := ItemAt(es, x);
        assert ItemIds(es)[k] == x;
      }
    }
  }

  // ----- sums over the database

  lemma ValidPrefix(db: Database, n: nat)
    requires ValidDatabase(db) && n <= |db|
    ensures ValidDatabase(db[..n])
  {
  }

  lemma {:induction false} CoverSumAdditive(db: Database, X: ItemSet, S: ItemSet, T: ItemSet)
    requires S !! T
    ensures CoverSum(db, X, S + T) == CoverSum(db, X, S) + CoverSum(db, X, T)
  {
    if db != [] {
      CoverSumAdditive(db[..|db| - 1], X, S, T);
      UtilityInAdditive(db[|db| - 1].items, S, T);
    }
  }

  /** More required items and fewer counted ones can only lower the sum. */
  lemma {:induction false} CoverSumMonotone(db: Database, X: ItemSet, S: ItemSet, X': ItemSet, S': ItemSet)
    requires ValidDatabase(db) && X <= X' && S' <= S
    ensures 0 <= CoverSum(db, X', S') <= CoverSum(db, X, S)
  {
    if db != [] {
      var t := db[|db| - 1];
      CoverSumMonotone(db[..|db| - 1], X, S, X', S');
      assert ValidTransaction(t);
      UtilityInMonotone(t.items, S', S);
    }
  }

  lemma {:induction false} CoverSumBelowTwu(db: Database, X: ItemSet, S: ItemSet)
    requires ValidDatabase(db)
    ensures 0 <= CoverSum(db, X, S) <= Twu(db, X)
  {
    if db != [] {
      var t := db[|db| - 1];
      CoverSumBelowTwu(db[..|db| - 1], X, S);
      assert ValidTransaction(t);
      UtilityInRestrict(t.items, S, S * ItemsOf(t.items));
      UtilityInMonotone(t.items, S * ItemsOf(t.items), ItemsOf(t.items));
    }
  }

  lemma {:induction false} TwuMonotone(db: Database, X: ItemSet, X': ItemSet)
    requires ValidDatabase(db) && X <= X'
    ensures 0 <= Twu(db, X') <= Twu(db, X)
  {
    if db != [] {
      var t := db[|db| - 1];
      TwuMonotone(db[..|db| - 1], X, X');
      assert ValidTransaction(t);
      UtilityInNonNegative(t.items, ItemsOf(t.items));
    }
  }

  lemma {:induction false} UnsupportedSums(db: Database, X: ItemSet, S: ItemSet)
    requires !Supported(db, X)
    ensures CoverSum(db, X, S) == 0 && Twu(db, X) == 0
  {
    if db != [] {
      assert !(X <= ItemsOf(db[|db| - 1].items));
      var init := db[..|db| - 1];
      assert forall k | 0 <= k < |init| :: init[k] == db[k];
      UnsupportedSums(init, X, S);
    }
  }

  /** How the sums and the support grow with one more transaction. */
  lemma PrefixStep(db: Database, n: nat, X: ItemSet, S: ItemSet)
    requires n < |db|
    ensures CoverSum(db[..n + 1], X, S) ==
            CoverSum(db[..n], X, S) + (if X <= ItemsOf(db[n].items) then UtilityIn(db[n].items, S) else 0)
    ensures Twu(db[..n + 1], X) == Twu(db[..n], X) + (if X <= ItemsOf(db[n].items) then db[n].tu else 0)
    ensures Supported(db[..n + 1], X) <==> Supported(db[..n], X) || X <= ItemsOf(db[n].items)
  {
    var next := db[..n + 1];
    assert next[..n] == db[..n] && next[n] == db[n];
    assert forall k | 0 <= k < n :: db[..n][k] == next[k];
    if X <= ItemsOf(db[n].items) { assert X <= ItemsOf(next[n].items); }
    if Supported(db[..n], X) {
      var k :| 0 <= k < n && X <= ItemsOf(db[..n][k].items);
      assert X <= ItemsOf(next[k].items);
    }
  }

  /** Transactions without X leave every sum over X as it was. */
  lemma {:induction false} GapSums(db: Database, X: ItemSet, S: ItemSet, n: nat, m: nat)
    requires n <= m <= |db| && forall k | n <= k < m :: !(X <= ItemsOf(db[k].items))
    ensures CoverSum(db[..m], X, S) == CoverSum(db[..n], X, S) && Twu(db[..m], X) == Twu(db[..n], X)
    ensures Supported(db[..m], X) <==> Supported(db[..n], X)
  {
    if n < m {
      PrefixStep(db, m - 1, X, S);
      GapSums(db, X, S, n, m - 1);
    }
  }

  lemma SupportedMonotone(db: Database, X: ItemSet, X': ItemSet)
    requires X <= X' && Supported(db, X')
    ensures Supported(db, X)
  {
    var k :| 0 <= k < |db| && X' <= ItemsOf(db[k].items);
    assert X <= ItemsOf(db[k].items);
  }

  /** Every subset of a high-utility itemset has a transaction-weighted utility of at least the
      threshold: the argument behind TWU filtering, EUCS and Two-Phase pruning. */
  lemma HuiSubsetTwu(db: Database, min: int, X: ItemSet, Y: ItemSet)
    requires ValidDatabase(db) && IsHui(db, min, X) && Y <= X
    ensures Supported(db, Y) && Twu(db, Y) >= min
  {
    SupportedMonotone(db, Y, X);
    CoverSumBelowTwu(db, X, X);
    TwuMonotone(db, Y, X);
  }

  // ----- listing a family of itemsets exactly

  /** c names each member of F once, with no item repeated inside a name. */
  ghost predicate Lists(c: seq<seq<ItemId>>, F: iset<ItemSet>) {
    && (forall k | 0 <= k < |c| :: Distinct(c[k]) && Elems(c[k]) in F)
    && (forall i, j | 0 <= i < j < |c| :: Elems(c[i]) != Elems(c[j]))
    && (forall X | X in F :: exists k :: 0 <= k < |c| && Elems(c[k]) == X)
  }

  function Itemsets(out: seq<Hui>): (c: seq<seq<ItemId>>)
    ensures |c| == |out| && forall k | 0 <= k < |out| :: c[k] == out[k].itemset
  {
    seq(|out|, i requires 0 <= i < |out| => out[i].itemset)
  }

  ghost predicate ExactUtilities(db: Database, out: seq<Hui>) {
    forall k | 0 <= k < |out| :: out[k].utility == Utility(db, Elems(out[k].itemset))
  }

  /** The output lists F exactly, each itemset with its utility in db. */
  ghost predicate Emits(db: Database, out: seq<Hui>, F: iset<ItemSet>) {
    Lists(Itemsets(out), F) && ExactUtilities(db, out)
  }

  /** The output lists only members of F, none twice, each with its utility in db. */
  ghost predicate Sound(db: Database, out: seq<Hui>, F: iset<ItemSet>) {
    && (forall k | 0 <= k < |out| :: Distinct(out[k].itemset) && Elems(out[k].itemset) in F)
    && (forall i, j | 0 <= i < j < |out| :: Elems(out[i].itemset) != Elems(out[j].itemset))
    && ExactUtilities(db, out)
  }

  /** The output is sound and, where `all`, also complete. */
  ghost predicate Reports(db: Database, out: seq<Hui>, F: iset<ItemSet>, all: bool) {
    Sound(db, out, F) && (all ==> Emits(db, out, F))
  }

  lemma EmitsReports(db: Database, out: seq<Hui>, F: iset<ItemSet>)
    requires Emits(db, out, F)
    ensures Reports(db, out, F, true)
  {
    var c := Itemsets(out);
    assert forall k | 0 <= k < |out| :: Elems(c[k]) == Elems(out[k].itemset);
  }

  lemma ReportsNothing(db: Database, F: iset<ItemSet>)
    ensures Reports(db, [], F, false)
    ensures F == iset{} ==> Reports(db, [], F, true)
  {
    EmitsNothing(db);
  }

  lemma ReportsLess(db: Database, out: seq<Hui>, F: iset<ItemSet>, all: bool, G: iset<ItemSet>)
    requires Reports(db, out, F, all) && F <= G
    ensures Reports(db, out, G, false)
  {
  }

  lemma ReportsParts(db: Database, out: seq<Hui>, F: iset<ItemSet>, all: bool)
    requires Reports(db, out, F, all)
    ensures Sound(db, out, F) && (all ==> Emits(db, out, F))
  {
  }

  lemma ReportsWeaken(db: Database, out: seq<Hui>, F: iset<ItemSet>, all: bool)
    requires Reports(db, out, F, all)
    ensures Reports(db, out, F, false)
  {
  }

  lemma ReportsConcat(db: Database, a: seq<Hui>, F: iset<ItemSet>, p: bool, b: seq<Hui>, G: iset<ItemSet>, q: bool)
    requires Reports(db, a, F, p) && Reports(db, b, G, q)
    requires forall X | X in F :: X !in G
    ensures Reports(db, a + b, F + G, p && q)
  {
    hide Emits, Elems;
    if p && q { EmitsConcat(db, a, F, b, G); }
    var c := a + b;
    forall i, j | 0 <= i < j < |c| ensures Elems(c[i].itemset) != Elems(c[j].itemset) {
      if i < |a| <= j { assert Elems(c[i].itemset) in F && Elems(c[j].itemset) in G; }
    }
  }

  lemma ListsConcat(a: seq<seq<ItemId>>, F: iset<ItemSet>, b: seq<seq<ItemId>>, G: iset<ItemSet>)
    requires Lists(a, F) && Lists(b, G)
    requires forall X | X in F :: X !in G
    ensures Lists(a + b, F + G)
  {
    var c := a + b;
    forall X | X in F + G
      ensures exists k :: 0 <= k < |c| && Elems(c[k]) == X
    {
      if X in F {
        var k :| 0 <= k < |a| && Elems(a[k]) == X;
        assert c[k] == a[k];
      } else {
        var k :| 0 <= k < |b| && Elems(b[k]) == X;
        assert c[|a| + k] == b[k];
      }
    }
  }

  lemma ListsSingle(s: seq<ItemId>)
    requires Distinct(s)
    ensures Lists([s], iset{Elems(s)})
  {
    assert [s][0] == s;
  }

  lemma EmitsConcat(db: Database, a: seq<Hui>, F: iset<ItemSet>, b: seq<Hui>, G: iset<ItemSet>)
    requires Emits(db, a, F) && Emits(db, b, G)
    requires forall X | X in F :: X !in G
    ensures Emits(db, a + b, F + G)
  {
    ListsConcat(Itemsets(a), F, Itemsets(b), G);
    assert Itemsets(a + b) == Itemsets(a) + Itemsets(b);
  }

  lemma EmitsSingle(db: Database, h: Hui)
    requires Distinct(h.itemset) && h.utility == Utility(db, Elems(h.itemset))
    ensures Emits(db, [h], iset{Elems(h.itemset)})
  {
    ListsSingle(h.itemset);
    assert Itemsets([h]) == [h.itemset];
  }

  lemma EmitsNothing(db: Database)
    ensures Emits(db, [], iset{})
  {
  }

  /** The itemsets that extend P by a non-empty part of E. */
  ghost function Family(P: ItemSet, E: ItemSet): iset<ItemSet> {
    iset X: ItemSet | P <= X <= P + E && X != P
  }

  /** The itemsets that extend P by x and by any part of L. */
  ghost function Branch(P: ItemSet, x: ItemId, L: ItemSet): iset<ItemSet> {
    iset X: ItemSet | P + {x} <= X <= P + {x} + L
  }

  /** A branch is its root together with the root's proper extensions. */
  lemma BranchSplit(P: ItemSet, x: ItemId, L: ItemSet)
    ensures Branch(P, x, L) == iset{P + {x}} + Family(P + {x}, L)
  {
  }

  /** What a left-to-right loop over the extensions has covered after the first i of them. */
  ghost function Covered(P: ItemSet, exts: seq<ItemId>, i: nat): iset<ItemSet>
    requires i <= |exts|
  {
    iset X: ItemSet | X in Family(P, Elems(exts)) && X * Elems(exts[..i]) != {}
  }

  lemma CoveredEnds(P: ItemSet, exts: seq<ItemId>)
    requires P !! Elems(exts)
    ensures Covered(P, exts, 0) == iset{}
    ensures Covered(P, exts, |exts|) == Family(P, Elems(exts))
  {
    assert exts[..|exts|] == exts;
    forall X | X in Family(P, Elems(exts))
      ensures X * Elems(exts) != {}
    {
      var y :| y in X && y !in P;
      assert y in X * Elems(exts);
    }
  }

  /** The i-th step covers exactly the branch of exts[i] over the later extensions, and nothing
      that was covered before. */
  lemma CoveredStep(P: ItemSet, exts: seq<ItemId>, i: nat)
    requires i < |exts| && Distinct(exts) && P !! Elems(exts)
    ensures Covered(P, exts, i + 1) == Covered(P, exts, i) + Branch(P, exts[i], Elems(exts[i + 1..]))
    ensures forall X | X in Covered(P, exts, i) :: X !in Branch(P, exts[i], Elems(exts[i + 1..]))
  {
    var x, before, after := exts[i], Elems(exts[..i]), Elems(exts[i + 1..]);
    assert exts == exts[..i] + [x] + exts[i + 1..];
    assert Elems(exts) == before + {x} + after;
    assert Elems(exts[..i + 1]) == before + {x} by { assert exts[..i + 1] == exts[..i] + [x]; }
    assert x !in before && x !in after && before !! after;
    assert before !! P && x !in P && after !! P;
    forall X: ItemSet
      ensures X in Covered(P, exts, i + 1) <==> X in Covered(P, exts, i) || X in Branch(P, x, after)
      ensures X in Covered(P, exts, i) ==> X !in Branch(P, x, after)
    {
      if X in Family(P, Elems(exts)) && X * before == {} {
        assert X <= P + {x} + after;
        assert x in X ==> x in X * (before + {x});
        assert x !in X ==> X * (before + {x}) == {};
      }
      if X in Branch(P, x, after) {
        assert x in X * (before + {x});
        assert X * before == {};
        assert X in Family(P, Elems(exts));
      }
      if X in Covered(P, exts, i) {
        var y :| y in X * before;
        assert y in X * (before + {x});
      }
    }
  }

  // ----- output of a left-to-right loop, restricted to a wanted family W

  lemma ReportsLoopStart(db: Database, P: ItemSet, items: seq<ItemId>, W: iset<ItemSet>)
    ensures Reports(db, [], Covered(P, items, 0) * W, true)
  {
    ReportsNothing(db, Covered(P, items, 0) * W);
    assert Covered(P, items, 0) * W == iset{};
  }

  lemma ReportsLoopStep(db: Database, P: ItemSet, items: seq<ItemId>, i: nat, W: iset<ItemSet>,
                        found: seq<Hui>, p: bool, more: seq<Hui>, q: bool)
    requires i < |items| && Distinct(items) && P !! Elems(items)
    requires Reports(db, found, Covered(P, items, i) * W, p)
    requires Reports(db, more, Branch(P, items[i], Elems(items[i + 1..])) * W, q)
    ensures Reports(db, found + more, Covered(P, items, i + 1) * W, p && q)
  {
    hide Reports, Branch, Covered;
    CoveredStep(P, items, i);
    var F, G := Covered(P, items, i), Branch(P, items[i], Elems(items[i + 1..]));
    ReportsConcat(db, found, F * W, p, more, G * W, q);
    assert F * W + G * W == (F + G) * W;
  }

  lemma CoveredGrows(P: ItemSet, exts: seq<ItemId>, i: nat, j: nat)
    requires i <= j <= |exts|
    ensures Covered(P, exts, i) <= Covered(P, exts, j) <= Family(P, Elems(exts))
  {
    assert exts[..j] == exts[..i] + exts[i..j];
  }

  /** A loop that stops early has reported a part. */
  lemma ReportsLoopCut(db: Database, P: ItemSet, items: seq<ItemId>, i: nat, W: iset<ItemSet>, found: seq<Hui>, p: bool)
    requires i <= |items| && P !! Elems(items) && Reports(db, found, Covered(P, items, i) * W, p)
    ensures Reports(db, found, Family(P, Elems(items)) * W, p && i == |items|)
  {
    hide Reports;
    CoveredEnds(P, items);
    ReportsLess(db, found, Covered(P, items, i) * W, p, Family(P, Elems(items)) * W);
  }

  lemma ReportsBranch(db: Database, W: iset<ItemSet>, P: ItemSet, x: ItemId, later: ItemSet, root: seq<Hui>, p: bool,
                      deeper: seq<Hui>, q: bool)
    requires Reports(db, root, iset{P + {x}} * W, p) && Reports(db, deeper, Family(P + {x}, later) * W, q)
    ensures Reports(db, root + deeper, Branch(P, x, later) * W, p && q)
  {
    hide Reports;
    BranchSplit(P, x, later);
    var F, G := iset{P + {x}}, Family(P + {x}, later);
    ReportsConcat(db, root, F * W, p, deeper, G * W, q);
    assert F * W + G * W == (F + G) * W;
  }

  /** Two exact outputs for one database are the same, up to the order of lines and of items in a line. */
  lemma SameResults(db: Database, a: seq<Hui>, b: seq<Hui>, F: iset<ItemSet>, i: nat) returns (j: nat)
    requires Emits(db, a, F) && Emits(db, b, F) && i < |a|
    ensures j < |b| && Elems(b[j].itemset) == Elems(a[i].itemset) && b[j].utility == a[i].utility
    ensures forall k | 0 <= k < |b| && Elems(b[k].itemset) == Elems(a[i].itemset) :: k == j
  {
    var X := Elems(Itemsets(a)[i]);
    assert X in F;
    j :| 0 <= j < |Itemsets(b)| && Elems(Itemsets(b)[j]) == X;
    forall k | 0 <= k < |b| && Elems(b[k].itemset) == Elems(a[i].itemset) ensures k == j {
      assert Elems(Itemsets(b)[k]) == X;
    }
  }

  /** The order in which parallel workers hand their results to the writer does not matter. */
  lemma ListsPermuted(c: seq<seq<ItemId>>, d: seq<seq<ItemId>>, F: iset<ItemSet>)
    requires Lists(c, F) && multiset(c) == multiset(d)
    ensures Lists(d, F)
  {
    forall s ensures s in c <==> s in d {
      assert s in c <==> s in multiset(c);
      assert s in d <==> s in multiset(d);
    }
    forall k | 0 <= k < |d|
      ensures Distinct(d[k]) && Elems(d[k]) in F
    {
      assert d[k] in c;
    }
    forall X | X in F
      ensures exists k :: 0 <= k < |d| && Elems(d[k]) == X
    {
      var k :| 0 <= k < |c| && Elems(c[k]) == X;
      assert c[k] in d;
      var m :| 0 <= m < |d| && d[m] == c[k];
    }
    forall i, j | 0 <= i < j < |d|
      ensures Elems(d[i]) != Elems(d[j])
    {
      if Elems(d[i]) == Elems(d[j]) {
        assert d[i] in c && d[j] in c;
        var p :| 0 <= p < |c| && c[p] == d[i];
        var q :| 0 <= q < |c| && c[q] == d[j];
        assert p == q;
        OccursOnce(c, p);
        OccursTwice(d, i, j);
        assert false;
      }
    }
  }

  lemma OccursTwice<T>(s: seq<T>, i: nat, j: nat)
    requires i < j < |s| && s[i] == s[j]
    ensures multiset(s)[s[i]] >= 2
  {
    assert s == s[..j] + [s[j]] + s[j + 1..];
    assert s[i] in s[..j];
    assert multiset(s) == multiset(s[..j]) + multiset{s[j]} + multiset(s[j + 1..]);
  }

  lemma OccursOnce<T>(s: seq<T>, p: nat)
    requires p < |s| && forall i, j | 0 <= i < j < |s| :: s[i] == s[p] ==> s[j] != s[p]
    ensures multiset(s)[s[p]] == 1
  {
    assert s == s[..p] + [s[p]] + s[p + 1..];
    assert s[p] !in s[..p];
    assert s[p] !in s[p + 1..];
    assert multiset(s) == multiset(s[..p]) + multiset{s[p]} + multiset(s[p + 1..]);
  }

  lemma EmitsPermuted(db: Database, a: seq<Hui>, b: seq<Hui>, F: iset<ItemSet>)
    requires Emits(db, a, F) && multiset(a) == multiset(b)
    ensures Emits(db, b, F)
  {
    ItemsetsPermuted(a, b);
    ListsPermuted(Itemsets(a), Itemsets(b), F);
    forall k | 0 <= k < |b|
      ensures b[k].utility == Utility(db, Elems(b[k].itemset))
    {
      assert b[k] in multiset(b);
      assert b[k] in multiset(a);
      var m :| 0 <= m < |a| && a[m] == b[k];
    }
  }

  lemma {:induction false} ItemsetsPermuted(a: seq<Hui>, b: seq<Hui>)
    requires multiset(a) == multiset(b)
    ensures multiset(Itemsets(a)) == multiset(Itemsets(b))
    decreases |a|
  {
    if a == [] {
      PermutedEmpty(a, b);
    } else {
      var n := |a| - 1;
      var k := PermutedLast(a, b);
      var c := b[..k] + b[k + 1..];
      ItemsetsPermuted(a[..n], c);
      assert Itemsets(a) == Itemsets(a[..n]) + [a[n].itemset];
      assert Itemsets(c) == Itemsets(b[..k]) + Itemsets(b[k + 1..]);
      assert Itemsets(b) == Itemsets(b[..k]) + [b[k].itemset] + Itemsets(b[k + 1..]);
    }
  }

  lemma TuCovers(db: Database, n: nat)
    requires ValidDatabase(db) && n < |db|
    ensures db[n].tu >= 0
  {
    assert ValidTransaction(db[n]);
    UtilityInNonNegative(db[n].items, ItemsOf(db[n].items));
  }
}
