/** What the engines assume of their input: no 64-bit sum overflows while twice the total transaction
    utility fits, and each assumption is needed. */
module Limits {
  import opened Huim
  import opened Bytes
  import opened TwuFilter
  import opened UtilityLists
  import opened WeightedPaths
  import opened EucsTable
  import Efim
  import UpGrowth

  /** The TWU filter and the co-occurrence table: every running sum, and every next one. */
  lemma RunningTwuFits(db: Database, n: nat, X: ItemSet)
    requires ValidDatabase(db) && FitsWidths(db) && n < |db|
    ensures 0 <= Twu(db[..n], X) && Twu(db[..n], X) + db[n].tu <= I64_MAX
  {
    ValidPrefix(db, n);
    TwuMonotone(db[..n], {}, X);
    PrefixStep(db, n, {}, {});
    PrefixTotal(db, n + 1);
  }

  /** The co-occurrence table, also after refusals: every amount it ever holds, and every next one. */
  lemma TableFits(db: Database, n: nat, twu: TwuMap, room: nat, p: Pair)
    requires ValidDatabase(db) && FitsWidths(db) && n < |db|
    ensures var table := FinalTable(db[..n], twu, room);
            p in table ==> 0 <= table[p] && table[p] + db[n].tu <= I64_MAX
  {
    hide FinalTable, Recorded, FirstPairs, AllPairs, Twu, FitsWidths;
    var E := db[..n];
    ValidPrefix(db, n);
    FinalKeys(E, twu, room);
    FirstBounds(AllPairs(E, twu), room);
    if p in FinalTable(E, twu, room) {
      assert p in AllPairs(E, twu);
      AllPairsAre(E, twu, p);
      FinalAmounts(E, twu, room, p);
      RecordedTwu(E, twu, FinalTable(E, twu, room).Keys, p);
      RunningTwuFits(db, n, {p.0, p.1});
    }
  }

  /** EFIM's local and sub-tree utilities after any number of transactions. */
  lemma EfimBoundsFit(D: Database, n: nat, twu: TwuMap, P: ItemSet, last: ItemId, x: ItemId)
    requires ValidDatabase(D) && FitsWidths(D) && n <= |D| && P !! After(twu, last) && x in After(twu, last)
    ensures 0 <= Efim.SubtreeUtility(D[..n], twu, P, x) <= Efim.LocalUtility(D[..n], twu, P, last, x) <= I64_MAX
  {
    hide CoverSum, Twu;
    var E, Q, A := D[..n], P + {x}, After(twu, last);
    ValidPrefix(D, n);
    Efim.SubtreeBelowLocal(E, twu, P, last, x);
    CoverSumAdditive(E, Q, P, A);
    CoverSumBelowTwu(E, Q, P + A);
    TwuMonotone(E, {}, Q);
    PrefixTotal(D, n);
    CoverSumBelowTwu(E, Q, P);
    CoverSumBelowTwu(E, Q, {x});
    CoverSumBelowTwu(E, Q, After(twu, x));
  }

  /** UP-Growth's nodes: no weight of the global tree exceeds the total transaction utility. */
  lemma UpNodesFit(db: Database, n: nat, twu: TwuMap, L: seq<WPath>, p: seq<ItemId>)
    requires ValidDatabase(db) && FitsWidths(db) && n <= |db| && UpGrowth.Global(db, n, twu, L) && p != []
    ensures 0 <= Weight(L, p) <= TotalTu(db[..n]) <= I64_MAX
  {
    WeightBounded(L, p);
    PrefixTotal(db, n);
  }

  /** Twice is needed: with the total itself in range, px + py can still leave it before the shared
      prefix is subtracted. */
  lemma TwiceIsNeeded(big: int)
    requires big <= I64_MAX < 2 * big
    ensures var t := Transaction(0, big, [ItemEntry(0, big), ItemEntry(1, 0), ItemEntry(2, 0)]);
            && ValidTransaction(t) && InI64(t.tu)
            && !InI64(UtilityIn(t.items, {0, 1}) + UtilityIn(t.items, {0, 2}))
            && InI64(UtilityIn(t.items, {0, 1}) + UtilityIn(t.items, {0, 2}) - UtilityIn(t.items, {0}))
  {
    var es := [ItemEntry(0, big), ItemEntry(1, 0), ItemEntry(2, 0)];
    assert es[0] in es && es[1] in es && es[2] in es;
    assert ItemsOf(es) == {0, 1, 2};
    forall X: ItemSet ensures UtilityIn(es, X) == if 0 in X then big else 0 {
      assert es[..2] == [es[0], es[1]] && es[..2][..1] == [es[0]] && es[..2][..1][..0] == [];
      assert UtilityIn(es[..2][..1], X) == if 0 in X then big else 0;
      assert UtilityIn(es[..2], X) == UtilityIn(es[..2][..1], X);
    }
  }

  /** Pass 1 at this threshold keeps every item of every high-utility itemset. */
  ghost predicate KeepsHuis(db: Database, min: int) {
    forall X, x | IsHui(db, min, X) && x in X :: Supported(db, {x}) && Twu(db, {x}) >= min
  }

  /** No supported itemset has a utility above the TWU of one of its items. */
  ghost predicate TwuCovers(db: Database) {
    forall X, x | X != {} && Supported(db, X) && x in X :: Utility(db, X) <= Twu(db, {x})
  }

  /** For any database whatever, with negative utilities or not: pass 1 loses nothing at any threshold
      exactly when the TWU of an item bounds the utility of every supported itemset that contains it. */
  lemma FilterSafeIff(db: Database)
    ensures (forall min :: KeepsHuis(db, min)) <==> TwuCovers(db)
  {
    if TwuCovers(db) {
      forall min, X, x | IsHui(db, min, X) && x in X ensures Supported(db, {x}) && Twu(db, {x}) >= min {
        SupportedMonotone(db, {x}, X);
        assert Utility(db, X) <= Twu(db, {x});
      }
    }
    if forall min :: KeepsHuis(db, min) {
      forall X, x | X != {} && Supported(db, X) && x in X ensures Utility(db, X) <= Twu(db, {x}) {
        assert KeepsHuis(db, Utility(db, X));
        assert IsHui(db, Utility(db, X), X);
      }
    }
  }

  /** What validation checks is enough, and it can be checked one transaction at a time. */
  lemma ValidTwuCovers(db: Database)
    requires ValidDatabase(db)
    ensures TwuCovers(db)
  {
    forall X, x | X != {} && Supported(db, X) && x in X ensures Utility(db, X) <= Twu(db, {x}) {
      CoverSumBelowTwu(db, X, X);
      TwuMonotone(db, {x}, X);
    }
  }

  /** A negative utility can break it: here {1} is of high utility, but its TWU misses the threshold, so
      pass 1 drops it. */
  lemma NegativeUtilityLost(gain: int, loss: int, min: int)
    requires 0 < loss && gain - loss < min <= gain
    ensures var db := [Transaction(0, gain - loss, [ItemEntry(1, gain), ItemEntry(2, -loss)])];
            IsHui(db, min, {1}) && Twu(db, {1}) < min && !TwuCovers(db) && !KeepsHuis(db, min) && !ValidDatabase(db)
  {
    var es := [ItemEntry(1, gain), ItemEntry(2, -loss)];
    var t := Transaction(0, gain - loss, es);
    var db := [t];
    assert es[0] in es;
    assert {1} <= ItemsOf(es);
    assert es[..1] == [es[0]] && es[..1][..0] == [] && db[..0] == [];
    assert UtilityIn(es[..1], {1}) == gain;
    assert {1} <= ItemsOf(db[0].items);
    assert UtilityIn(es, {1}) == gain;
    assert CoverSum(db[..0], {1}, {1}) == 0 && CoverSum(db, {1}, {1}) == gain;
    assert 1 in {1} && Utility(db, {1}) == gain;
    assert es[1].utility < 0;
    assert !ValidTransaction(db[0]);
  }
}
