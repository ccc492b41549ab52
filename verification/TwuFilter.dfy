/** Pass 1 of every engine: transaction-weighted utilities of single items, the items that reach the
    threshold, their processing order, and transactions cut down to those items
    (src/preprocessing/twu_filter.rs). */
module TwuFilter {
  import opened Huim
  import opened Options

  type TwuMap = map<ItemId, int>

  datatype FilteredTransaction = FilteredTransaction(tid: nat, tu: int, items: seq<ItemEntry>)

  datatype TwuFilterResult = TwuFilterResult(twu: TwuMap, orderedItems: seq<(ItemId, int)>, minUtility: int)

  function Key(twu: TwuMap, x: ItemId): int {
    if x in twu then twu[x] else 0
  }

  /** The processing order: ascending TWU, ties broken by item id. */
  predicate Less(twu: TwuMap, x: ItemId, y: ItemId) {
    Key(twu, x) < Key(twu, y) || (Key(twu, x) == Key(twu, y) && x < y)
  }

  /** The kept items that come after x. */
  function After(twu: TwuMap, x: ItemId): ItemSet {
    set y | y in twu && Less(twu, x, y)
  }

  ghost predicate SortedItems(twu: TwuMap, s: seq<ItemId>) {
    forall i, j | 0 <= i < j < |s| :: Less(twu, s[i], s[j])
  }

  ghost predicate SortedEntries(twu: TwuMap, es: seq<ItemEntry>) {
    forall i, j | 0 <= i < j < |es| :: Less(twu, es[i].item, es[j].item)
  }

  /** The entries whose item passed the filter. */
  function Kept(twu: TwuMap, es: seq<ItemEntry>): seq<ItemEntry> {
    if es == [] then []
    else Kept(twu, es[..|es| - 1]) + (if es[|es| - 1].item in twu then [es[|es| - 1]] else [])
  }

  /** Places e before the first entry that is not smaller. */
  function InsertEntry(twu: TwuMap, e: ItemEntry, es: seq<ItemEntry>): (r: seq<ItemEntry>)
    ensures multiset(r) == multiset(es) + multiset{e}
  {
    if es == [] then [e]
    else if !Less(twu, es[0].item, e.item) then [e] + es
    else
      assert es == [es[0]] + es[1..];
      [es[0]] + InsertEntry(twu, e, es[1..])
  }

  /** The library sort by (TWU, item). */
  function SortEntries(twu: TwuMap, es: seq<ItemEntry>): (r: seq<ItemEntry>)
    ensures multiset(r) == multiset(es)
  {
    if es == [] then []
    else
      assert es == [es[0]] + es[1..];
      InsertEntry(twu, es[0], SortEntries(twu, es[1..]))
  }

  lemma InsertEntryElems(twu: TwuMap, e: ItemEntry, es: seq<ItemEntry>, x: ItemEntry)
    ensures x in InsertEntry(twu, e, es) <==> x in es || x == e
  {
    hide InsertEntry;
    var r := InsertEntry(twu, e, es);
    assert x in r <==> x in multiset(r);
    assert x in es <==> x in multiset(es);
  }

  lemma {:induction false} InsertEntrySorted(twu: TwuMap, e: ItemEntry, es: seq<ItemEntry>)
    requires SortedEntries(twu, es) && forall k | 0 <= k < |es| :: es[k].item != e.item
    ensures SortedEntries(twu, InsertEntry(twu, e, es))
    ensures forall x :: x in InsertEntry(twu, e, es) <==> x in es || x == e
  {
    forall x ensures x in InsertEntry(twu, e, es) <==> x in es || x == e { InsertEntryElems(twu, e, es, x); }
    if es != [] && Less(twu, es[0].item, e.item) {
      var r := InsertEntry(twu, e, es[1..]);
      InsertEntrySorted(twu, e, es[1..]);
      forall k | 0 <= k < |r| ensures Less(twu, es[0].item, r[k].item) {
        assert r[k] in r;
        if r[k] != e {
          var i :| 0 <= i < |es[1..]| && es[1..][i] == r[k];
          assert es[i + 1] == r[k];
        }
      }
      SortedCons(twu, es[0], r);
    }
  }

  lemma SortedCons(twu: TwuMap, e: ItemEntry, es: seq<ItemEntry>)
    requires SortedEntries(twu, es) && forall k | 0 <= k < |es| :: Less(twu, e.item, es[k].item)
    ensures SortedEntries(twu, [e] + es)
  {
    hide Less;
  }

  lemma {:induction false} SortEntriesSorted(twu: TwuMap, es: seq<ItemEntry>)
    requires DistinctItems(es)
    ensures SortedEntries(twu, SortEntries(twu, es))
    ensures forall x :: x in SortEntries(twu, es) <==> x in es
  {
    if es != [] {
      var r := SortEntries(twu, es[1..]);
      SortEntriesSorted(twu, es[1..]);
      assert es == [es[0]] + es[1..];
      forall k | 0 <= k < |r| ensures r[k].item != es[0].item {
        assert r[k] in r;
        var i :| 0 <= i < |es[1..]| && es[1..][i] == r[k];
        assert es[i + 1] == r[k];
      }
      InsertEntrySorted(twu, es[0], r);
    }
  }

  function InsertItem(twu: TwuMap, x: ItemId, s: seq<ItemId>): seq<ItemId> {
    if s == [] then [x]
    else if Less(twu, x, s[0]) then [x] + s
    else [s[0]] + InsertItem(twu, x, s[1..])
  }

  lemma {:induction false} InsertItemElems(twu: TwuMap, x: ItemId, s: seq<ItemId>)
    ensures Elems(InsertItem(twu, x, s)) == Elems(s) + {x}
  {
    if s != [] {
      assert s == [s[0]] + s[1..];
      if Less(twu, x, s[0]) {
        assert Elems([x] + s) == Elems(s) + {x};
      } else {
        var r := InsertItem(twu, x, s[1..]);
        InsertItemElems(twu, x, s[1..]);
        assert Elems([s[0]] + r) == {s[0]} + Elems(r);
        assert Elems(s) == {s[0]} + Elems(s[1..]);
      }
    }
  }

  lemma {:induction false} InsertItemSorted(twu: TwuMap, x: ItemId, s: seq<ItemId>)
    requires SortedItems(twu, s) && x !in s
    ensures SortedItems(twu, InsertItem(twu, x, s))
  {
    if s != [] && !Less(twu, x, s[0]) {
      var r := InsertItem(twu, x, s[1..]);
      InsertItemSorted(twu, x, s[1..]);
      InsertItemElems(twu, x, s[1..]);
      forall k | 0 <= k < |r| ensures Less(twu, s[0], r[k]) {
        assert r[k] in Elems(s[1..]) + {x};
        if r[k] != x {
          var i :| 0 <= i < |s[1..]| && s[1..][i] == r[k];
          assert s[i + 1] == r[k];
        }
      }
    }
  }

  lemma KeptItems(twu: TwuMap, es: seq<ItemEntry>)
    ensures forall e :: e in Kept(twu, es) <==> e in es && e.item in twu
    ensures ItemsOf(Kept(twu, es)) == ItemsOf(es) * twu.Keys
    ensures DistinctItems(es) ==> DistinctItems(Kept(twu, es))
  {
    if es != [] {
      var init, e := es[..|es| - 1], es[|es| - 1];
      assert es == init + [e];
      KeptItems(twu, init);
      assert forall x :: x in es <==> x in init || x == e;
      assert forall x :: x in Kept(twu, es) <==> x in es && x.item in twu;
      if DistinctItems(es) {
        var r := Kept(twu, init);
        assert forall k | 0 <= k < |r| :: r[k] in init && r[k].item != e.item;
      }
    }
  }

  lemma {:induction false} KeptUtility(twu: TwuMap, es: seq<ItemEntry>, S: ItemSet)
    ensures UtilityIn(Kept(twu, es), S) == UtilityIn(es, S * twu.Keys)
  {
    if es != [] {
      var init, e := es[..|es| - 1], es[|es| - 1];
      KeptUtility(twu, init, S);
      if e.item in twu {
        assert Kept(twu, es)[..|Kept(twu, es)| - 1] == Kept(twu, init);
      } else {
        assert Kept(twu, es) == Kept(twu, init);
      }
    }
  }

  /** What pass 2 needs of a filtered transaction f of t. */
  ghost predicate Filters(twu: TwuMap, t: Transaction, f: FilteredTransaction) {
    && f.tid == t.tid && f.tu == t.tu
    && SortedEntries(twu, f.items)
    && ItemsOf(f.items) == ItemsOf(t.items) * twu.Keys
    && NonNegative(f.items)
    && (forall S :: UtilityIn(f.items, S) == UtilityIn(t.items, S * twu.Keys))
  }

  /** Filter and reorder one transaction; nothing is returned exactly when no item passes, and
      otherwise the kept items carry all the utility the kept items had. */
  function Apply(twu: TwuMap, t: Transaction): (r: Option<FilteredTransaction>)
    ensures r.None? <==> ItemsOf(t.items) * twu.Keys == {}
    ensures r.Some? && ValidTransaction(t) ==> Filters(twu, t, r.value)
  {
    var kept := Kept(twu, t.items);
    KeptItems(twu, t.items);
    if kept == [] then
      assert ItemsOf(kept) == {};
      None
    else
      assert kept[0].item in ItemsOf(kept);
      var f := FilteredTransaction(t.tid, t.tu, SortEntries(twu, kept));
      assert ValidTransaction(t) ==> Filters(twu, t, f) by {
        if ValidTransaction(t) { ApplyFilters(twu, t, kept, f.items); }
      }
      Some(f)
  }

  lemma ApplyFilters(twu: TwuMap, t: Transaction, kept: seq<ItemEntry>, items: seq<ItemEntry>)
    requires ValidTransaction(t) && kept == Kept(twu, t.items) && items == SortEntries(twu, kept)
    ensures Filters(twu, t, FilteredTransaction(t.tid, t.tu, items))
  {
    KeptItems(twu, t.items);
    SortEntriesSorted(twu, kept);
    ItemsOfPermuted(items, kept);
    forall S ensures UtilityIn(items, S) == UtilityIn(t.items, S * twu.Keys) {
      UtilityInPermuted(items, kept, S);
      KeptUtility(twu, t.items, S);
    }
    forall k | 0 <= k < |items| ensures items[k].utility >= 0 {
      assert items[k] in items;
    }
  }

  /** In a sorted list of entries, those behind position k are the entries of later items. */
  lemma SortedSuffix(twu: TwuMap, es: seq<ItemEntry>, k: nat)
    requires SortedEntries(twu, es) && ItemsOf(es) <= twu.Keys && k < |es|
    ensures ItemsOf(es[k + 1..]) == ItemsOf(es) * After(twu, es[k].item)
    ensures ItemsOf(es[..k + 1]) !! After(twu, es[k].item)
  {
    var A, front, back := After(twu, es[k].item), es[..k + 1], es[k + 1..];
    forall x | x in ItemsOf(front) ensures x !in A {
      var i := ItemAt(front, x);
      assert es[i].item == x;
      if i < k { assert Less(twu, es[i].item, es[k].item); }
    }
    forall i | 0 <= i <= k ensures es[i].item !in A {
      assert front[i] in front;
    }
    forall x ensures x in ItemsOf(back) <==> x in ItemsOf(es) && x in A {
      if x in ItemsOf(back) {
        var i := ItemAt(back, x);
        assert es[k + 1 + i].item == x && es[k + 1 + i] in es;
        assert Less(twu, es[k].item, es[k + 1 + i].item);
      }
      if x in ItemsOf(es) && x in A {
        var i := ItemAt(es, x);
        assert k < i;
        assert es[i] == back[i - k - 1];
      }
    }
  }

  /** So the utility behind position k is the utility of the items after it. */
  lemma SuffixUtility(twu: TwuMap, t: Transaction, f: FilteredTransaction, k: nat)
    requires Filters(twu, t, f) && k < |f.items|
    ensures UtilityIn(f.items[k + 1..], ItemsOf(f.items[k + 1..])) == UtilityIn(t.items, After(twu, f.items[k].item))
    ensures f.items[k].utility == UtilityIn(t.items, {f.items[k].item})
    ensures f.items[k].item in twu && f.items[k].item in ItemsOf(t.items)
  {
    hide UtilityIn, After, Less;
    var es, x := f.items, f.items[k].item;
    var A := After(twu, x);
    AfterKept(twu, x);
    SortedSuffix(twu, es, k);
    SplitUtility(es, k + 1, A);
    assert A * twu.Keys == A;
    SortedAreDistinct(twu, es);
    UtilityInSingle(es, k);
    assert es[k] in es && x in ItemsOf(es);
    assert {x} * twu.Keys == {x};
  }

  lemma AfterKept(twu: TwuMap, x: ItemId)
    ensures After(twu, x) <= twu.Keys
  {
  }

  lemma SortedAreDistinct(twu: TwuMap, es: seq<ItemEntry>)
    requires SortedEntries(twu, es)
    ensures DistinctItems(es)
  {
    forall i, j | 0 <= i < j < |es| ensures es[i].item != es[j].item {
      assert Less(twu, es[i].item, es[j].item);
    }
  }

  lemma SplitUtility(es: seq<ItemEntry>, n: nat, A: ItemSet)
    requires n <= |es| && ItemsOf(es[..n]) !! A && ItemsOf(es[n..]) <= A
    ensures UtilityIn(es, A) == UtilityIn(es[n..], ItemsOf(es[n..]))
  {
    assert es == es[..n] + es[n..];
    UtilityInConcat(es[..n], es[n..], A);
    UtilityInAbsent(es[..n], A);
    UtilityInRestrict(es[n..], A, ItemsOf(es[n..]));
  }

  /** Items that miss the threshold appear in no high-utility itemset. */
  lemma HuiKept(db: Database, min: int, twu: TwuMap, X: ItemSet)
    requires ValidDatabase(db) && IsTwuFilter(db, min, twu) && IsHui(db, min, X)
    ensures X <= twu.Keys
  {
    forall x | x in X ensures x in twu {
      HuiSubsetTwu(db, min, X, {x});
    }
  }

  /** The map pass 1 must compute. */
  ghost predicate IsTwuFilter(db: Database, min: int, twu: TwuMap) {
    && (forall x :: x in twu <==> Supported(db, {x}) && Twu(db, {x}) >= min)
    && (forall x | x in twu :: twu[x] == Twu(db, {x}))
  }

  /** The items pass 1 keeps. */
  ghost function PassingItems(db: Database, min: int): ItemSet {
    set k, e | 0 <= k < |db| && e in db[k].items && Twu(db, {e.item}) >= min :: e.item
  }

  /** The one map pass 1 can return. */
  ghost function TwuOf(db: Database, min: int): TwuMap {
    map x | x in PassingItems(db, min) :: Twu(db, {x})
  }

  lemma PassingIs(db: Database, min: int, x: ItemId)
    ensures x in PassingItems(db, min) <==> Supported(db, {x}) && Twu(db, {x}) >= min
  {
    if x in PassingItems(db, min) {
      var k, e :| 0 <= k < |db| && e in db[k].items && e.item == x && Twu(db, {e.item}) >= min;
      assert {x} <= ItemsOf(db[k].items);
    }
    if Supported(db, {x}) && Twu(db, {x}) >= min {
      var k :| 0 <= k < |db| && {x} <= ItemsOf(db[k].items);
      assert x in ItemsOf(db[k].items);
      var i := ItemAt(db[k].items, x);
      assert db[k].items[i] in db[k].items;
    }
  }

  lemma TwuOfIs(db: Database, min: int)
    ensures IsTwuFilter(db, min, TwuOf(db, min)) && TwuOf(db, min).Keys == PassingItems(db, min)
    ensures forall twu | IsTwuFilter(db, min, twu) :: twu == TwuOf(db, min)
  {
    hide PassingItems, Supported, Twu;
    forall x ensures x in PassingItems(db, min) <==> Supported(db, {x}) && Twu(db, {x}) >= min { PassingIs(db, min, x); }
    forall twu | IsTwuFilter(db, min, twu) ensures twu == TwuOf(db, min) {
      assert twu.Keys == TwuOf(db, min).Keys;
    }
  }

  /** The running map after n transactions and, in the next one, the entries of the items done. */
  ghost predicate Accumulated(db: Database, n: nat, done: ItemSet, tu: int, twu: TwuMap)
    requires n <= |db|
  {
    && (forall x :: x in twu <==> Supported(db[..n], {x}) || x in done)
    && (forall x | x in twu :: twu[x] == Twu(db[..n], {x}) + (if x in done then tu else 0))
  }

  lemma AccumulatedNext(db: Database, n: nat, twu: TwuMap)
    requires n < |db| && Accumulated(db, n, ItemsOf(db[n].items), db[n].tu, twu)
    ensures Accumulated(db, n + 1, {}, 0, twu)
  {
    forall x
      ensures x in twu <==> Supported(db[..n + 1], {x})
      ensures x in twu ==> twu[x] == Twu(db[..n + 1], {x})
    {
      PrefixStep(db, n, {x}, {});
      assert {x} <= ItemsOf(db[n].items) <==> x in ItemsOf(db[n].items);
    }
  }

  lemma AccumulatedEntry(db: Database, n: nat, m: nat, twu: TwuMap)
    requires n < |db| && m < |db[n].items| && DistinctItems(db[n].items)
    requires Accumulated(db, n, ItemsOf(db[n].items[..m]), db[n].tu, twu)
    ensures var x := db[n].items[m].item;
            Accumulated(db, n, ItemsOf(db[n].items[..m + 1]), db[n].tu, twu[x := Key(twu, x) + db[n].tu])
  {
    var es, x := db[n].items, db[n].items[m].item;
    assert es[..m + 1] == es[..m] + [es[m]];
    ItemsOfSnoc(es[..m], es[m]);
    forall e | e in es[..m] ensures e.item != x {
      var i :| 0 <= i < m && es[i] == e;
    }
    if x !in twu { UnsupportedSums(db[..n], {x}, {}); }
  }

  lemma AccumulatedStart(db: Database)
    ensures Accumulated(db, 0, {}, 0, map[])
  {
  }

  lemma AccumulatedOpen(db: Database, n: nat, tu: int, twu: TwuMap)
    requires n <= |db| && Accumulated(db, n, {}, 0, twu)
    ensures Accumulated(db, n, {}, tu, twu)
  {
  }

  lemma AccumulatedAll(db: Database, min: int, twu: TwuMap, kept: TwuMap)
    requires Accumulated(db, |db|, {}, 0, twu) && kept == map x | x in twu && twu[x] >= min :: twu[x]
    ensures IsTwuFilter(db, min, kept)
  {
    assert db[..|db|] == db;
  }

  /** One pass over the database: the TWU of every item, cut at the threshold, and the surviving
      items in processing order. */
  method Compute(db: Database, min: int) returns (r: TwuFilterResult)
    requires ValidDatabase(db)
    ensures IsTwuFilter(db, min, r.twu) && r.minUtility == min
    ensures Elems(OrderedIds(r.orderedItems)) == r.twu.Keys
    ensures SortedItems(r.twu, OrderedIds(r.orderedItems))
    ensures forall k | 0 <= k < |r.orderedItems| :: r.orderedItems[k].0 in r.twu && r.orderedItems[k].1 == r.twu[r.orderedItems[k].0]
  {
    hide Accumulated, UtilityIn, Twu, Supported;
    var twu: TwuMap := map[];
    AccumulatedStart(db);
    for n := 0 to |db|
      invariant Accumulated(db, n, {}, 0, twu)
    {
      var t := db[n];
      assert ValidTransaction(t);
      assert t.items[..0] == [] && ItemsOf([]) == {};
      AccumulatedOpen(db, n, t.tu, twu);
      for m := 0 to |t.items|
        invariant Accumulated(db, n, ItemsOf(t.items[..m]), t.tu, twu)
      {
        AccumulatedEntry(db, n, m, twu);
        var x := t.items[m].item;
        twu := twu[x := Key(twu, x) + t.tu];
      }
      assert t.items[..|t.items|] == t.items;
      AccumulatedNext(db, n, twu);
    }
    var kept := map x | x in twu && twu[x] >= min :: twu[x];
    AccumulatedAll(db, min, twu, kept);
    var ids := SortedKeys(kept, kept.Keys);
    r := TwuFilterResult(kept, seq(|ids|, i requires 0 <= i < |ids| => (ids[i], Key(kept, ids[i]))), min);
    assert OrderedIds(r.orderedItems) == ids;
    forall k | 0 <= k < |ids| ensures ids[k] in kept { assert ids[k] in Elems(ids); }
  }

  lemma ItemsOfSnoc(es: seq<ItemEntry>, e: ItemEntry)
    ensures ItemsOf(es + [e]) == ItemsOf(es) + {e.item}
  {
    assert forall x :: x in es + [e] <==> x in es || x == e;
    assert e in es + [e];
  }

  function OrderedIds(ordered: seq<(ItemId, int)>): (s: seq<ItemId>)
    ensures |s| == |ordered| && forall k | 0 <= k < |s| :: s[k] == ordered[k].0
  {
    seq(|ordered|, i requires 0 <= i < |ordered| => ordered[i].0)
  }

  /** A hash map's keys arrive in no particular order; the sort makes the result unique. */
  method SortedKeys(twu: TwuMap, keys: set<ItemId>) returns (s: seq<ItemId>)
    ensures Elems(s) == keys && SortedItems(twu, s) && Distinct(s)
  {
    s := [];
    var rest := keys;
    while rest != {}
      invariant rest <= keys && Elems(s) == keys - rest && SortedItems(twu, s)
      decreases rest
    {
      var x :| x in rest;
      assert x !in Elems(s);
      InsertItemSorted(twu, x, s);
      InsertItemElems(twu, x, s);
      s := InsertItem(twu, x, s);
      rest := rest - {x};
    }
    forall i, j | 0 <= i < j < |s| ensures s[i] != s[j] { assert Less(twu, s[i], s[j]); }
  }

  /** Sorting fixes the order completely, whatever order the keys arrive in. */
  lemma {:induction false} SortedUnique(twu: TwuMap, a: seq<ItemId>, b: seq<ItemId>)
    requires SortedItems(twu, a) && SortedItems(twu, b) && Elems(a) == Elems(b)
    ensures a == b
  {
    if a == [] {
      ElemsEmpty(b);
    } else {
      assert a[0] in Elems(b);
      assert b != [];
      assert b[0] in Elems(a);
      assert a[0] == b[0];
      assert a == [a[0]] + a[1..] && b == [b[0]] + b[1..];
      forall x ensures x in a[1..] <==> x in b[1..] {
        if x in a[1..] {
          assert x in Elems(b) && x != a[0];
        }
        if x in b[1..] {
          assert x in Elems(a) && x != b[0];
        }
      }
      SortedUnique(twu, a[1..], b[1..]);
    }
  }

  lemma ApplyShort(twu: TwuMap, t: Transaction)
    ensures Apply(twu, t).Some? ==> |Apply(twu, t).value.items| <= |t.items|
  {
    var kept := Kept(twu, t.items);
    KeptShort(twu, t.items);
    assert |multiset(SortEntries(twu, kept))| == |multiset(kept)|;
  }

  lemma {:induction false} KeptShort(twu: TwuMap, es: seq<ItemEntry>)
    ensures |Kept(twu, es)| <= |es|
  {
    if es != [] { KeptShort(twu, es[..|es| - 1]); }
  }
}
