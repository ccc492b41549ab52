/** The filtered database EFIM mines: every transaction cut to the kept items in processing order,
    transactions without kept items dropped, numbered by position
    (src/mining/algorithms/efim.rs:88-114, src/mining/algorithms/efim_closed.rs:99-125). */
module FilteredDb {
  import opened Huim
  import opened Options
  import opened TwuFilter
  import opened UtilityLists

  ghost function FilterDb(db: Database, twu: TwuMap): Database {
    if db == [] then []
    else
      var rest := FilterDb(db[..|db| - 1], twu);
      match Apply(twu, db[|db| - 1])
      case None => rest
      case Some(f) => rest + [Transaction(|rest|, f.tu, f.items)]
  }

  /** Sorted transactions over kept items, numbered by position. */
  ghost predicate SortedDb(D: Database, twu: TwuMap) {
    && ValidDatabase(D) && Numbered(D)
    && (forall k | 0 <= k < |D| :: SortedEntries(twu, D[k].items) && ItemsOf(D[k].items) <= twu.Keys)
  }

  lemma FilteredTransactionValid(twu: TwuMap, t: Transaction, f: FilteredTransaction, id: nat)
    requires ValidTransaction(t) && Filters(twu, t, f)
    ensures ValidTransaction(Transaction(id, f.tu, f.items)) && SortedEntries(twu, f.items) && ItemsOf(f.items) <= twu.Keys
  {
    forall i, j | 0 <= i < j < |f.items| ensures f.items[i].item != f.items[j].item {
      assert Less(twu, f.items[i].item, f.items[j].item);
    }
    UtilityInMonotone(t.items, ItemsOf(f.items) * twu.Keys, ItemsOf(t.items));
  }

  /** One more transaction of the filtered database. */
  lemma FilterDbStep(db: Database, twu: TwuMap, n: nat)
    requires ValidDatabase(db) && n < |db|
    ensures ValidTransaction(db[n])
    ensures var rest, D := FilterDb(db[..n], twu), FilterDb(db[..n + 1], twu);
            match Apply(twu, db[n])
            case None => D == rest
            case Some(f) => |D| == |rest| + 1 && D[..|rest|] == rest && D[|rest|] == Transaction(|rest|, f.tu, f.items)
  {
    assert db[..n + 1][..n] == db[..n];
    assert ValidTransaction(db[n]);
  }

  lemma SortedDbSnoc(rest: Database, t: Transaction, twu: TwuMap)
    requires SortedDb(rest, twu) && ValidTransaction(t) && t.tid == |rest|
    requires SortedEntries(twu, t.items) && ItemsOf(t.items) <= twu.Keys
    ensures SortedDb(rest + [t], twu)
  {
    hide ValidTransaction, SortedEntries, ItemsOf;
  }

  lemma {:induction false} FilterDbSorted(db: Database, twu: TwuMap, n: nat)
    requires ValidDatabase(db) && n <= |db|
    ensures SortedDb(FilterDb(db[..n], twu), twu) && |FilterDb(db[..n], twu)| <= n
  {
    if n > 0 {
      hide *;
      FilterDbSorted(db, twu, n - 1);
      FilterDbStep(db, twu, n - 1);
      var rest, D := FilterDb(db[..n - 1], twu), FilterDb(db[..n], twu);
      match Apply(twu, db[n - 1])
      case None =>
      case Some(f) =>
        FilteredTransactionValid(twu, db[n - 1], f, |rest|);
        SortedDbSnoc(rest, D[|rest|], twu);
        assert D == rest + [D[|rest|]];
    }
  }

  lemma KeptPart(twu: TwuMap, t: Transaction, X: ItemSet)
    requires ValidTransaction(t) && X != {} && X <= twu.Keys
    ensures match Apply(twu, t)
            case None => !(X <= ItemsOf(t.items))
            case Some(f) => f.tu == t.tu && (X <= ItemsOf(f.items) <==> X <= ItemsOf(t.items)) && UtilityIn(f.items, X) == UtilityIn(t.items, X)
  {
    assert X <= ItemsOf(t.items) <==> X <= ItemsOf(t.items) * twu.Keys;
    assert X * twu.Keys == X;
  }

  /** The two databases agree on X. */
  ghost predicate Agree(D: Database, db: Database, X: ItemSet) {
    Utility(D, X) == Utility(db, X) && Twu(D, X) == Twu(db, X) && (Supported(D, X) <==> Supported(db, X))
  }

  lemma AgreeStep(D: Database, rest: Database, db: Database, n: nat, X: ItemSet)
    requires n < |db| && Agree(rest, db[..n], X)
    requires |D| == |rest| + 1 && D[..|rest|] == rest
    requires D[|rest|].tu == db[n].tu && UtilityIn(D[|rest|].items, X) == UtilityIn(db[n].items, X)
    requires X <= ItemsOf(D[|rest|].items) <==> X <= ItemsOf(db[n].items)
    ensures Agree(D, db[..n + 1], X)
  {
    hide CoverSum, Twu, Supported, UtilityIn, ItemsOf;
    PrefixStep(db, n, X, X);
    PrefixStep(D, |rest|, X, X);
    assert D[..|rest| + 1] == D;
  }

  lemma AgreeSkip(D: Database, db: Database, n: nat, X: ItemSet)
    requires n < |db| && Agree(D, db[..n], X) && !(X <= ItemsOf(db[n].items))
    ensures Agree(D, db[..n + 1], X)
  {
    hide CoverSum, Twu, Supported, UtilityIn, ItemsOf;
    PrefixStep(db, n, X, X);
  }

  lemma AgreeEmpty(db: Database, twu: TwuMap, X: ItemSet)
    ensures Agree(FilterDb(db[..0], twu), db[..0], X)
  {
    assert FilterDb(db[..0], twu) == db[..0];
  }

  /** For itemsets of kept items the two databases agree on utility, TWU and support. */
  lemma {:induction false} FilterDbSums(db: Database, twu: TwuMap, X: ItemSet, n: nat)
    requires ValidDatabase(db) && X != {} && X <= twu.Keys && n <= |db|
    ensures Agree(FilterDb(db[..n], twu), db[..n], X)
  {
    hide *;
    if n == 0 {
      AgreeEmpty(db, twu, X);
    } else {
      FilterDbSums(db, twu, X, n - 1);
      FilterDbStep(db, twu, n - 1);
      KeptPart(twu, db[n - 1], X);
      var rest, D := FilterDb(db[..n - 1], twu), FilterDb(db[..n], twu);
      if Apply(twu, db[n - 1]).Some? {
        AgreeStep(D, rest, db, n - 1, X);
      } else {
        AgreeSkip(D, db, n - 1, X);
      }
    }
  }

  lemma NoTotal(db: Database, twu: TwuMap)
    ensures TotalTu(FilterDb(db[..0], twu)) == 0 && TotalTu(db[..0]) == 0
  {
    assert FilterDb(db[..0], twu) == db[..0];
  }

  lemma {:induction false} FilterDbTotal(db: Database, twu: TwuMap, n: nat)
    requires ValidDatabase(db) && n <= |db|
    ensures 0 <= TotalTu(FilterDb(db[..n], twu)) <= TotalTu(db[..n])
  {
    hide FilterDb, Twu, Apply, ValidTransaction, UtilityIn, ItemsOf;
    if n == 0 {
      NoTotal(db, twu);
    } else {
      FilterDbTotal(db, twu, n - 1);
      FilterDbStep(db, twu, n - 1);
      TransactionFits(db[n - 1], {});
      PrefixStep(db, n - 1, {}, {});
      var rest, D := FilterDb(db[..n - 1], twu), FilterDb(db[..n], twu);
      if Apply(twu, db[n - 1]).Some? {
        PrefixStep(D, |rest|, {}, {});
        assert D[..|rest| + 1] == D;
      }
    }
  }

  /** High-utility itemsets are the same in both. */
  lemma FilterDbHuis(db: Database, min: int, twu: TwuMap, X: ItemSet)
    requires ValidDatabase(db) && IsTwuFilter(db, min, twu)
    ensures IsHui(FilterDb(db, twu), min, X) <==> IsHui(db, min, X)
    ensures IsHui(db, min, X) ==> X <= twu.Keys && Utility(FilterDb(db, twu), X) == Utility(db, X)
  {
    hide FilterDb, CoverSum, Twu, ValidDatabase, IsTwuFilter, ItemsOf, ValidTransaction;
    assert db[..|db|] == db;
    if X != {} && X <= twu.Keys { FilterDbSums(db, twu, X, |db|); }
    if IsHui(db, min, X) { HuiKept(db, min, twu, X); }
    var D := FilterDb(db, twu);
    FilterDbSorted(db, twu, |db|);
    if Supported(D, X) {
      var k :| 0 <= k < |D| && X <= ItemsOf(D[k].items);
      assert X <= twu.Keys;
    }
  }

  // ----- closed itemsets

  /** Every proper superset is contained in fewer transactions. */
  ghost predicate Closed(db: Database, X: ItemSet) {
    forall Y: ItemSet | X <= Y && Y != X :: Support(db, Y) != Support(db, X)
  }

  /** Some transaction contains X but not y. */
  ghost predicate Misses(db: Database, X: ItemSet, y: ItemId) {
    exists k :: 0 <= k < |db| && X <= ItemsOf(db[k].items) && y !in ItemsOf(db[k].items)
  }

  /** No further item is in every transaction that contains X. */
  ghost predicate NoCommonItem(db: Database, X: ItemSet) {
    forall y | y !in X :: Misses(db, X, y)
  }

  lemma ClosedByItems(db: Database, X: ItemSet)
    ensures Closed(db, X) <==> NoCommonItem(db, X)
  {
    if Closed(db, X) {
      forall y | y !in X ensures Misses(db, X, y) {
        var Y := X + {y};
        assert X <= Y && y in Y && Y != X;
        assert Support(db, Y) <= Support(db, X);
        assert Support(db, Y) != Support(db, X);
        var k :| k in Support(db, X) && k !in Support(db, Y);
        assert X <= ItemsOf(db[k].items) && !(Y <= ItemsOf(db[k].items));
      }
    }
    if NoCommonItem(db, X) {
      forall Y: ItemSet | X <= Y && Y != X ensures Support(db, Y) != Support(db, X) {
        assert Y <= X ==> Y == X;
        var y :| y in Y && y !in X;
        assert Misses(db, X, y);
        var k :| 0 <= k < |db| && X <= ItemsOf(db[k].items) && y !in ItemsOf(db[k].items);
        assert k in Support(db, X) && k !in Support(db, Y);
      }
    }
  }

  /** An item in every transaction of a high-utility itemset passes the TWU filter itself, so looking
      for it among the kept items only is enough: closed in the filtered database is closed in the raw one. */
  lemma ClosedInFiltered(db: Database, min: int, twu: TwuMap, X: ItemSet)
    requires ValidDatabase(db) && IsTwuFilter(db, min, twu) && IsHui(db, min, X)
    ensures Closed(FilterDb(db, twu), X) <==> Closed(db, X)
  {
    hide FilterDb, Closed, Misses;
    var D := FilterDb(db, twu);
    HuiKept(db, min, twu, X);
    ClosedByItems(db, X);
    ClosedByItems(D, X);
    forall y | y !in X ensures Misses(db, X, y) <==> Misses(D, X, y) {
      if y !in twu && !Misses(db, X, y) { CommonItemKept(db, min, X, y); }
      MissingFrom(db, twu, X, y);
    }
  }

  lemma CommonItemKept(db: Database, min: int, X: ItemSet, y: ItemId)
    requires ValidDatabase(db) && IsHui(db, min, X)
    requires !Misses(db, X, y)
    ensures Supported(db, {y}) && Twu(db, {y}) >= min
  {
    var k :| 0 <= k < |db| && X <= ItemsOf(db[k].items);
    assert {y} <= ItemsOf(db[k].items);
    CommonItemTwu(db, X, y);
    CoverSumBelowTwu(db, X, X);
  }

  lemma {:induction false} CommonItemTwu(db: Database, X: ItemSet, y: ItemId)
    requires ValidDatabase(db)
    requires forall k | 0 <= k < |db| :: X <= ItemsOf(db[k].items) ==> y in ItemsOf(db[k].items)
    ensures Twu(db, {y}) >= Twu(db, X)
  {
    if db != [] {
      var n := |db| - 1;
      assert forall k | 0 <= k < n :: db[..n][k] == db[k];
      CommonItemTwu(db[..n], X, y);
      assert ValidTransaction(db[n]);
      UtilityInNonNegative(db[n].items, ItemsOf(db[n].items));
    }
  }

  /** A supporting transaction without y exists in one database if and only if it does in the other. */
  lemma MissingFrom(db: Database, twu: TwuMap, X: ItemSet, y: ItemId)
    requires ValidDatabase(db) && X != {} && X <= twu.Keys && y !in X
    requires y in twu || Misses(db, X, y)
    ensures Misses(db, X, y) <==> Misses(FilterDb(db, twu), X, y)
  {
    var D := FilterDb(db, twu);
    if Misses(db, X, y) {
      var k :| 0 <= k < |db| && X <= ItemsOf(db[k].items) && y !in ItemsOf(db[k].items);
      var m := FilteredAt(db, twu, X, k);
      assert X <= ItemsOf(D[m].items) && y !in ItemsOf(D[m].items);
    }
    if Misses(D, X, y) {
      var k :| 0 <= k < |D| && X <= ItemsOf(D[k].items) && y !in ItemsOf(D[k].items);
      var m := RawAt(db, twu, k);
      if y in twu { assert X <= ItemsOf(db[m].items) && y !in ItemsOf(db[m].items); }
    }
  }

  /** The filtered copy of a supporting transaction. */
  lemma {:induction false} FilteredAt(db: Database, twu: TwuMap, X: ItemSet, k: nat) returns (m: nat)
    requires ValidDatabase(db) && X != {} && X <= twu.Keys && k < |db| && X <= ItemsOf(db[k].items)
    ensures m < |FilterDb(db, twu)| && ItemsOf(FilterDb(db, twu)[m].items) == ItemsOf(db[k].items) * twu.Keys
    decreases |db|
  {
    var n := |db| - 1;
    assert ValidTransaction(db[n]);
    if k < n {
      m := FilteredAt(db[..n], twu, X, k);
    } else {
      m := |FilterDb(db[..n], twu)|;
      var x :| x in X;
      assert x in ItemsOf(db[k].items) * twu.Keys;
    }
  }

  lemma {:induction false} RawAt(db: Database, twu: TwuMap, m: nat) returns (k: nat)
    requires ValidDatabase(db) && m < |FilterDb(db, twu)|
    ensures k < |db| && ItemsOf(FilterDb(db, twu)[m].items) == ItemsOf(db[k].items) * twu.Keys
    decreases |db|
  {
    hide ValidTransaction, ItemsOf;
    var n := |db| - 1;
    assert ValidTransaction(db[n]);
    if m < |FilterDb(db[..n], twu)| {
      k := RawAt(db[..n], twu, m);
    } else {
      k := n;
    }
  }
}
