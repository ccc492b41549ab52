/** FHM and FHM+: depth-first search over utility lists with TWU, EUCS and remaining-utility pruning
    (src/mining/algorithms/fhm.rs, src/mining/algorithms/fhm_plus.rs). The two differ only in the
    length tests, so they share one search. */
module Fhm {
  import opened Huim
  import opened Bytes
  import opened PageLayout
  import opened Storage
  import opened Lru
  import opened Pool
  import opened TwuFilter
  import opened UtilityLists
  import opened Memory
  import opened EucsTable
  import opened Output

  /** FHM has no length limits; FHM+ takes a shortest and a longest length. */
  datatype Lengths = Unlimited | Between(minLength: nat, maxLength: nat)
  {
    predicate Admits(n: nat) {
      match this
      case Unlimited => true
      case Between(lo, hi) => lo <= n <= hi
    }

    /** FHM+ does not extend an itemset that is already at the longest length. */
    predicate Stops(n: nat) {
      Between? && n >= maxLength
    }
  }

  /** It stops exactly where no longer itemset is admitted. */
  lemma StopsIff(lengths: Lengths, n: nat)
    requires lengths.Between? ==> lengths.minLength <= lengths.maxLength
    ensures lengths.Stops(n) <==> forall m: nat | m > n :: !lengths.Admits(m)
  {
    match lengths
    case Unlimited => assert lengths.Admits(n + 1);
    case Between(lo, hi) => if n < hi { assert lengths.Admits(hi); }
  }

  const MATERIALIZE_THRESHOLD_BYTES: nat := 4096

  datatype UlBody = InMemory(entries: seq<ULEntry>) | OnDisk(page: PageId)

  datatype Ext = Ext(ul: UtilityList, body: UlBody)
  {
    /** The item this extension adds: the last of its itemset. */
    function Item(): ItemId {
      if ul.itemset == [] then 0 else ul.itemset[|ul.itemset| - 1]
    }
  }

  /** What a run must list: the high-utility itemsets of admitted length whose pairs the table keeps. */
  ghost function Wanted(db: Database, min: int, table: map<Pair, int>, lengths: Lengths): iset<ItemSet> {
    iset X: ItemSet | IsHui(db, min, X) && PairsKept(table, min, X) && lengths.Admits(|X|)
  }

  // ----- spilled list bodies

  /** The body stands for these entries, in memory or as a page. */
  ghost predicate Holds(body: UlBody, contents: Flat, es: seq<ULEntry>) {
    match body
    case InMemory(entries) => entries == es
    case OnDisk(p) => EntriesFit(es) && p in contents && contents[p] == BodyBytes(es)
  }

  /** An extension of prefix by one kept item, with its correct utility list. */
  ghost predicate ExtOf(db: Database, twu: TwuMap, prefix: seq<ItemId>, e: Ext, contents: Flat) {
    && e.ul.itemset == prefix + [e.Item()]
    && e.Item() in twu && e.Item() !in prefix
    && HeaderOf(e.ul, db, Elems(prefix) + {e.Item()}, After(twu, e.Item()))
    && Holds(e.body, contents, UL(db, Elems(prefix) + {e.Item()}, After(twu, e.Item())))
  }

  function Items(exts: seq<Ext>): (s: seq<ItemId>)
    ensures |s| == |exts| && forall k | 0 <= k < |s| :: s[k] == exts[k].Item()
  {
    seq(|exts|, k requires 0 <= k < |exts| => exts[k].Item())
  }

  /** What the search is called with. */
  ghost predicate Ready(db: Database, twu: TwuMap, min: int, table: map<Pair, int>, prefix: seq<ItemId>, exts: seq<Ext>,
                        contents: Flat) {
    && Distinct(prefix)
    && (forall k | 0 <= k < |exts| :: ExtOf(db, twu, prefix, exts[k], contents))
    && (forall a, b | 0 <= a < b < |exts| :: Less(twu, exts[a].Item(), exts[b].Item()))
    && (forall k | 0 <= k < |exts| :: PairsKept(table, min, Elems(prefix) + {exts[k].Item()}))
  }

  lemma ReadyItems(db: Database, twu: TwuMap, min: int, table: map<Pair, int>, prefix: seq<ItemId>, exts: seq<Ext>,
                   contents: Flat)
    requires Ready(db, twu, min, table, prefix, exts, contents)
    ensures Distinct(Items(exts)) && Elems(prefix) !! Elems(Items(exts))
    ensures forall i | 0 <= i < |exts| :: Elems(Items(exts)[i + 1..]) <= After(twu, exts[i].Item())
  {
    var s := Items(exts);
    forall x | x in Elems(s) ensures x !in Elems(prefix) {
      var k :| 0 <= k < |s| && s[k] == x;
      assert ExtOf(db, twu, prefix, exts[k], contents);
    }
    forall i, y | 0 <= i < |exts| && y in Elems(s[i + 1..]) ensures y in After(twu, exts[i].Item()) {
      var k :| 0 <= k < |s[i + 1..]| && s[i + 1..][k] == y;
      assert s[i + 1 + k] == y && ExtOf(db, twu, prefix, exts[i + 1 + k], contents);
    }
  }

  lemma ReadyGrows(db: Database, twu: TwuMap, min: int, table: map<Pair, int>, prefix: seq<ItemId>, exts: seq<Ext>,
                   m: Flat, m': Flat)
    requires Ready(db, twu, min, table, prefix, exts, m) && Grows(m, m')
    ensures Ready(db, twu, min, table, prefix, exts, m')
  {
    forall k | 0 <= k < |exts| ensures ExtOf(db, twu, prefix, exts[k], m') {
      assert ExtOf(db, twu, prefix, exts[k], m);
    }
  }

  /** How a run can fail: a disk operation or a line of output failed, or a list does not fit the whole pool. */
  ghost predicate Excused(e: Error, db: Database, budget: nat, faulted: bool) {
    (e == Io && faulted) || (e == PoolFull && 20 * |db| > budget)
  }

  /** Disk operations that failed and lines that were not written. */
  ghost function Faults(pool: BufferPool, out: ResultWriter): nat
    reads pool, pool.store`faults, out`lines
  {
    pool.store.faults + out.Lost()
  }

  /** Resolves a body, through the pool if it was spilled. */
  method GetBody(ghost db: Database, ghost es: seq<ULEntry>, body: UlBody, pool: BufferPool) returns (r: Result<seq<ULEntry>>)
    requires pool.Valid() && pool.Idle() && Holds(body, pool.Contents(), es) && |es| <= |db|
    modifies pool`frames, pool`used, pool`guards, pool.store, pool.eviction
    ensures pool.Valid() && pool.Idle() && pool.Contents() == old(pool.Contents())
    ensures r.Ok? ==> r.value == es
    ensures pool.store.faults >= old(pool.store.faults)
    ensures r.Err? ==> Excused(r.error, db, pool.budget, pool.store.faults > old(pool.store.faults))
  {
    hide Consistent, Overlay, ResidentBytes, PinnedBytes, Data, PagesOf, ChunkStore.Pages, ChunkStore.Valid,
         ChunkStore.Stored,
         LruPolicy.Valid, Codec.Valid, BodyBytes, DeserializeBody;
    match body
    case InMemory(entries) =>
      r := Ok(entries);
    case OnDisk(page) =>
      var bytes := pool.Fetch(page);
      if bytes.Err? { return Err(bytes.error); }
      BodyRoundTrip(es);
      r := Ok(DeserializeBody(bytes.value));
  }

  /** One join: merge the lists, then keep the result in memory or, from 4096 bytes on, as a page. */
  method JoinUtilityLists(ghost db: Database, ghost P: ItemSet, ghost X: ItemSet, ghost Y: ItemSet, ghost Rp: ItemSet,
                          ghost Rx: ItemSet,
                          ghost Ry: ItemSet, itemset: seq<ItemId>, prefixBody: seq<ULEntry>, pxBody: seq<ULEntry>, pyBody: seq<ULEntry>,
                          pool: BufferPool) returns (r: Result<Ext>)
    requires ValidDatabase(db) && FitsWidths(db) && Joins(P, X, Y, Elems(itemset)) && Distinct(itemset)
    requires prefixBody == PrefixBody(db, P, Rp) && pxBody == UL(db, X, Rx) && pyBody == UL(db, Y, Ry)
    requires pool.Valid() && pool.Idle()
    modifies pool`frames, pool`used, pool.store, pool.eviction
    ensures pool.Valid() && Grows(old(pool.Contents()), pool.Contents())
    ensures r.Ok? ==> r.value.ul.itemset == itemset
    ensures r.Ok? ==> HeaderOf(r.value.ul, db, Elems(itemset), Ry)
    ensures r.Ok? ==> Holds(r.value.body, pool.Contents(), UL(db, Elems(itemset), Ry))
    ensures r.Ok? ==> (r.value.body.OnDisk? <==> 20 * |UL(db, Elems(itemset), Ry)| >= 4096)
    ensures pool.store.faults >= old(pool.store.faults)
    ensures r.Err? ==> Excused(r.error, db, pool.budget, pool.store.faults > old(pool.store.faults))
  {
    hide Consistent, Overlay, ResidentBytes, PinnedBytes, Data, PagesOf, ChunkStore.Pages, ChunkStore.Valid,
         ChunkStore.Stored, Joins;
    var result, sumIutils, sumRutils := Merge(db, P, X, Y, Elems(itemset), Rp, Rx, Ry, prefixBody, pxBody, pyBody);
    ULFits(db, Elems(itemset), Ry) by { FitsTotal(db); }
    ULSums(db, Elems(itemset), Ry);
    var bytes := SerializeBody(result);
    var ul := UtilityList(itemset, sumIutils, sumRutils, |result| % TWO_32);
    if |bytes| >= MATERIALIZE_THRESHOLD_BYTES {
      pool.IdlePinsNothing();
      var page := pool.InsertNew(bytes);
      if page.Err? { return Err(page.error); }
      r := Ok(Ext(ul, OnDisk(page.value)));
    } else {
      r := Ok(Ext(ul, InMemory(result)));
    }
  }

  lemma FitsTotal(db: Database)
    requires ValidDatabase(db) && FitsWidths(db)
    ensures TotalTu(db) <= I64_MAX
  {
    TwuMonotone(db, {}, {});
  }

  // ----- pruning

  /** The remaining-utility bound: when sum_iutils + sum_rutils misses the threshold, or the list is
      empty, nothing in the whole branch is wanted. */
  lemma PrunedBranch(db: Database, twu: TwuMap, min: int, ul: UtilityList, P: ItemSet, x: ItemId, L: ItemSet, X: ItemSet)
    requires ValidDatabase(db) && HeaderOf(ul, db, P + {x}, After(twu, x)) && L <= After(twu, x)
    requires ul.CanPrune(min) && X in Branch(P, x, L)
    ensures !IsHui(db, min, X)
  {
    var Q := P + {x};
    ULSums(db, Q, After(twu, x));
    if Supported(db, X) {
      SupportedMonotone(db, Q, X);
      CoverSumAdditive(db, X, Q, X - Q);
      assert Q + (X - Q) == X;
      CoverSumMonotone(db, Q, Q, X, Q);
      CoverSumMonotone(db, Q, After(twu, x), X, X - Q);
    }
  }

  /** Itemsets longer than the longest length are not wanted. */
  lemma StoppedBranch(lengths: Lengths, prefix: seq<ItemId>, x: ItemId, L: ItemSet, X: ItemSet)
    requires Distinct(prefix + [x]) && lengths.Stops(|prefix| + 1) && X in Family(Elems(prefix + [x]), L)
    ensures !lengths.Admits(|X|)
  {
    DistinctCount(prefix + [x]);
    var Q := Elems(prefix + [x]);
    assert X <= Q ==> X == Q;
    var y :| y in X && y !in Q;
    assert y in X - Q;
    assert |X| == |Q| + |X - Q| by { assert X == Q + (X - Q); }
  }

  /** Dropping the items cut against x loses nothing that is wanted. */
  lemma CutItems(db: Database, min: int, table: map<Pair, int>, lengths: Lengths, P: ItemSet, x: ItemId, later: ItemSet,
                 kept: ItemSet)
    requires kept <= later && x !in later && forall y | y in later && y !in kept :: Cuts(table, x, y, min)
    ensures Family(P + {x}, later) * Wanted(db, min, table, lengths) == Family(P + {x}, kept) * Wanted(db, min, table, lengths)
  {
    forall X | X in Family(P + {x}, later) && X in Wanted(db, min, table, lengths)
      ensures X in Family(P + {x}, kept)
    {
      forall y | y in X && y !in P + {x} ensures y in kept {
        assert x in X && y in later && y != x;
        assert !Cuts(table, x, y, min);
      }
    }
  }

  // ----- the search

  /** The inner loop of the search at extension i: the joins of P+x with the later extensions that EUCS keeps. */
  method BuildNext(ghost db: Database, ghost twu: TwuMap, min: int, prefix: seq<ItemId>, ghost Rp: ItemSet,
                   prefixBody: seq<ULEntry>,
                   exts: seq<Ext>, i: nat, pxBody: seq<ULEntry>, eucs: Eucs, pool: BufferPool)
    returns (r: Result<()>, next: seq<Ext>)
    requires ValidDatabase(db) && FitsWidths(db) && pool.Valid() && pool.Idle() && i < |exts|
    requires Ready(db, twu, min, eucs.inner, prefix, exts, pool.Contents()) && prefixBody == PrefixBody(db, Elems(prefix), Rp)
    requires pxBody == UL(db, Elems(prefix) + {exts[i].Item()}, After(twu, exts[i].Item()))
    modifies pool`frames, pool`used, pool`guards, pool.store, pool.eviction
    ensures pool.Valid() && pool.Idle() && Grows(old(pool.Contents()), pool.Contents())
    ensures pool.store.faults >= old(pool.store.faults)
    ensures r.Err? ==> Excused(r.error, db, pool.budget, pool.store.faults > old(pool.store.faults))
    ensures r.Ok? ==>
              Ready(db, twu, min, eucs.inner, prefix + [exts[i].Item()], next, pool.Contents()) && |next| < |exts| - i
    ensures r.Ok? ==> Elems(Items(next)) <= Elems(Items(exts)[i + 1..])
    ensures r.Ok? ==>
              forall y | y in Elems(Items(exts)[i + 1..]) && y !in Elems(Items(next)) :: Cuts(eucs.inner, exts[i].Item(), y, min)
  {
    hide Consistent, Overlay, ResidentBytes, PinnedBytes, Data, PagesOf, ChunkStore.Pages, ChunkStore.Valid,
         ChunkStore.Stored,
         HeaderOf, UL, FitsWidths, ValidDatabase, After, LruPolicy.Valid, Codec.Valid, Ready, NextSoFar, Holds,
         Distinct, UtilityLists.PrefixBody, Joins, Cuts;
    var x := exts[i].Item();
    next := [];
    NextStart(db, twu, min, eucs.inner, prefix, exts, i, pool.Contents());
    for j := i + 1 to |exts|
      invariant pool.Valid() && pool.Idle() && Grows(old(pool.Contents()), pool.Contents())
      invariant pool.store.faults >= old(pool.store.faults)
      invariant NextSoFar(db, twu, min, eucs.inner, prefix, exts, i, j, next, pool.Contents())
    {
      NextAt(db, twu, min, eucs.inner, prefix, exts, i, j, next, pool.Contents());
      var y := exts[j].Item();
      if eucs.CanPrune(x, y, min) {
        NextSkip(db, twu, min, eucs.inner, prefix, exts, i, j, next, pool.Contents());
        continue;
      }
      ghost var Y := Elems(prefix) + {y};
      ULSums(db, Y, After(twu, y));
      var pyBody := GetBody(db, UL(db, Y, After(twu, y)), exts[j].body, pool);
      if pyBody.Err? { return Err(pyBody.error), []; }
      var itemset := exts[i].ul.itemset + [y];
      ghost var before := pool.Contents();
      var e := JoinUtilityLists(db, Elems(prefix), Elems(prefix) + {x}, Y, Rp, After(twu, x), After(twu, y), itemset,
                                prefixBody, pxBody, pyBody.value, pool);
      if e.Err? { return Err(e.error), []; }
      NextAdd(db, twu, min, eucs.inner, prefix, exts, i, j, next, before, pool.Contents(), e.value);
      next := next + [e.value];
    }
    NextDone(db, twu, min, eucs.inner, prefix, exts, i, next, pool.Contents());
    r := Ok(());
  }

  /** The next level after extensions i+1 .. j-1 have been considered. */
  ghost predicate NextSoFar(db: Database, twu: TwuMap, min: int, table: map<Pair, int>, prefix: seq<ItemId>,
                            exts: seq<Ext>, i: nat, j: nat,
                            next: seq<Ext>, contents: Flat)
    requires i < j <= |exts|
  {
    && Ready(db, twu, min, table, prefix, exts, contents)
    && Ready(db, twu, min, table, prefix + [exts[i].Item()], next, contents)
    && |next| < j - i
    && Elems(Items(next)) <= Elems(Items(exts)[i + 1..j])
    && (forall y | y in Elems(Items(exts)[i + 1..j]) && y !in Elems(Items(next)) :: Cuts(table, exts[i].Item(), y, min))
  }

  lemma NextStart(db: Database, twu: TwuMap, min: int, table: map<Pair, int>, prefix: seq<ItemId>, exts: seq<Ext>,
                  i: nat, contents: Flat)
    requires i < |exts| && Ready(db, twu, min, table, prefix, exts, contents)
    ensures NextSoFar(db, twu, min, table, prefix, exts, i, i + 1, [], contents)
  {
    assert ExtOf(db, twu, prefix, exts[i], contents);
    assert Items(exts)[i + 1..i + 1] == [];
  }

  /** What the next candidate brings along. */
  lemma NextAt(db: Database, twu: TwuMap, min: int, table: map<Pair, int>, prefix: seq<ItemId>, exts: seq<Ext>, i: nat, j: nat,
               next: seq<Ext>, contents: Flat)
    requires i < j < |exts| && NextSoFar(db, twu, min, table, prefix, exts, i, j, next, contents)
    ensures var x, y, P := exts[i].Item(), exts[j].Item(), Elems(prefix);
            var itemset := exts[i].ul.itemset + [y];
            && Holds(exts[j].body, contents, UL(db, P + {y}, After(twu, y)))
            && Distinct(itemset) && Joins(P, P + {x}, P + {y}, Elems(itemset))
  {
    assert ExtOf(db, twu, prefix, exts[j], contents);
    JoinedItemset(db, twu, min, table, prefix, exts, i, j, contents);
  }

  lemma NextDone(db: Database, twu: TwuMap, min: int, table: map<Pair, int>, prefix: seq<ItemId>, exts: seq<Ext>, i: nat,
                 next: seq<Ext>, contents: Flat)
    requires i < |exts| && NextSoFar(db, twu, min, table, prefix, exts, i, |exts|, next, contents)
    ensures Ready(db, twu, min, table, prefix + [exts[i].Item()], next, contents) && |next| < |exts| - i
    ensures Elems(Items(next)) <= Elems(Items(exts)[i + 1..])
    ensures forall y | y in Elems(Items(exts)[i + 1..]) && y !in Elems(Items(next)) :: Cuts(table, exts[i].Item(), y, min)
  {
    assert Items(exts)[i + 1..|exts|] == Items(exts)[i + 1..];
  }

  lemma NextSkip(db: Database, twu: TwuMap, min: int, table: map<Pair, int>, prefix: seq<ItemId>, exts: seq<Ext>, i: nat, j: nat,
                 next: seq<Ext>, contents: Flat)
    requires i < j < |exts|
    requires NextSoFar(db, twu, min, table, prefix, exts, i, j, next, contents)
    requires Cuts(table, exts[i].Item(), exts[j].Item(), min)
    ensures NextSoFar(db, twu, min, table, prefix, exts, i, j + 1, next, contents)
  {
    var s := Items(exts);
    assert s[i + 1..j + 1] == s[i + 1..j] + [s[j]];
    assert Elems(s[i + 1..j + 1]) == Elems(s[i + 1..j]) + {s[j]};
  }

  lemma JoinedItemset(db: Database, twu: TwuMap, min: int, table: map<Pair, int>, prefix: seq<ItemId>, exts: seq<Ext>,
                      i: nat, j: nat, contents: Flat)
    requires i < j < |exts| && Ready(db, twu, min, table, prefix, exts, contents)
    ensures var x, y, P := exts[i].Item(), exts[j].Item(), Elems(prefix);
            var itemset := exts[i].ul.itemset + [y];
            && itemset == prefix + [x] + [y] && Distinct(itemset)
            && Elems(itemset) == P + {x} + {y} && Elems(prefix + [x]) == P + {x}
            && Joins(P, P + {x}, P + {y}, Elems(itemset))
  {
    var x, y, P := exts[i].Item(), exts[j].Item(), Elems(prefix);
    assert ExtOf(db, twu, prefix, exts[i], contents) && ExtOf(db, twu, prefix, exts[j], contents);
    assert Less(twu, x, y);
    assert Elems(prefix + [x]) == P + {x};
    assert Elems(prefix + [x] + [y]) == P + {x} + {y};
    assert x != y && x !in P && y !in P;
  }

  lemma NextAdd(db: Database, twu: TwuMap, min: int, table: map<Pair, int>, prefix: seq<ItemId>, exts: seq<Ext>, i: nat, j: nat,
                next: seq<Ext>, m: Flat, m': Flat, e: Ext)
    requires i < j < |exts|
    requires NextSoFar(db, twu, min, table, prefix, exts, i, j, next, m) && Grows(m, m')
    requires !Cuts(table, exts[i].Item(), exts[j].Item(), min)
    requires e.ul.itemset == exts[i].ul.itemset + [exts[j].Item()]
    requires HeaderOf(e.ul, db, Elems(e.ul.itemset), After(twu, exts[j].Item()))
    requires Holds(e.body, m', UL(db, Elems(e.ul.itemset), After(twu, exts[j].Item())))
    ensures NextSoFar(db, twu, min, table, prefix, exts, i, j + 1, next + [e], m')
  {
    hide HeaderOf, UL, BodyBytes, After, Holds, Cuts, Joins;
    var s, x, y := Items(exts), exts[i].Item(), exts[j].Item();
    ReadyGrows(db, twu, min, table, prefix, exts, m, m');
    ReadyGrows(db, twu, min, table, prefix + [x], next, m, m');
    assert s[i + 1..j + 1] == s[i + 1..j] + [s[j]];
    assert Elems(s[i + 1..j + 1]) == Elems(s[i + 1..j]) + {y};
    assert Items(next + [e]) == Items(next) + [y];
    assert Elems(Items(next + [e])) == Elems(Items(next)) + {y};
    ReadyAdd(db, twu, min, table, prefix, exts, i, j, next, m', e);
  }

  lemma ReadyAdd(db: Database, twu: TwuMap, min: int, table: map<Pair, int>, prefix: seq<ItemId>, exts: seq<Ext>, i: nat, j: nat,
                 next: seq<Ext>, contents: Flat, e: Ext)
    requires i < j < |exts| && Ready(db, twu, min, table, prefix, exts, contents)
    requires Ready(db, twu, min, table, prefix + [exts[i].Item()], next, contents)
    requires Elems(Items(next)) <= Elems(Items(exts)[i + 1..j]) && !Cuts(table, exts[i].Item(), exts[j].Item(), min)
    requires e.ul.itemset == exts[i].ul.itemset + [exts[j].Item()]
    requires HeaderOf(e.ul, db, Elems(e.ul.itemset), After(twu, exts[j].Item()))
    requires Holds(e.body, contents, UL(db, Elems(e.ul.itemset), After(twu, exts[j].Item())))
    ensures Ready(db, twu, min, table, prefix + [exts[i].Item()], next + [e], contents)
  {
    hide HeaderOf, UL, BodyBytes, After, Holds, Joins, Less, Cuts, Elems, PairsKept;
    var x, y := exts[i].Item(), exts[j].Item();
    JoinedItemset(db, twu, min, table, prefix, exts, i, j, contents);
    assert ExtOf(db, twu, prefix, exts[j], contents) && e.Item() == y;
    AddedPairs(table, min, Elems(prefix), x, y);
    forall a | 0 <= a < |next| ensures Less(twu, next[a].Item(), y) {
      LaterItem(exts, i, j, next, a);
    }
    assert y !in prefix + [x];
  }

  lemma LaterItem(exts: seq<Ext>, i: nat, j: nat, next: seq<Ext>, a: nat)
    requires i < j < |exts| && a < |next| && Elems(Items(next)) <= Elems(Items(exts)[i + 1..j])
    ensures exists k :: i < k < j && exts[k].Item() == next[a].Item()
  {
    var s := Items(exts)[i + 1..j];
    assert Items(next)[a] in Elems(Items(next));
    assert next[a].Item() in s;
    var k :| 0 <= k < |s| && s[k] == next[a].Item();
    assert exts[i + 1 + k].Item() == next[a].Item();
  }

  lemma AddedPairs(table: map<Pair, int>, min: int, P: ItemSet, x: ItemId, y: ItemId)
    requires PairsKept(table, min, P + {x}) && PairsKept(table, min, P + {y}) && !Cuts(table, x, y, min)
    ensures PairsKept(table, min, P + {x} + {y})
  {
    assert !Cuts(table, y, x, min);
  }

  /** Everything below extension i: the itemset P+x itself and its extensions by later items. A pruned
      branch costs no page, and where the search stops no list is joined. */
  method Visit(ghost db: Database, ghost twu: TwuMap, min: int, lengths: Lengths, prefix: seq<ItemId>, ghost Rp: ItemSet,
               prefixBody: seq<ULEntry>, exts: seq<Ext>, i: nat, eucs: Eucs, pool: BufferPool, out: ResultWriter)
    returns (r: Result<()>, ghost found: seq<Hui>)
    requires ValidDatabase(db) && FitsWidths(db) && pool.Valid() && pool.Idle() && i < |exts|
    requires Ready(db, twu, min, eucs.inner, prefix, exts, pool.Contents()) && prefixBody == PrefixBody(db, Elems(prefix), Rp)
    modifies pool`frames, pool`used, pool`guards, pool.store, pool.eviction, out
    ensures pool.Valid() && pool.Idle() && Grows(old(pool.Contents()), pool.Contents())
    ensures Faults(pool, out) >= old(Faults(pool, out))
    ensures r.Err? ==> Excused(r.error, db, pool.budget, Faults(pool, out) > old(Faults(pool, out)))
    ensures out.huis == old(out.huis) + found
    ensures Reports(db, found, Branch(Elems(prefix), exts[i].Item(), Elems(Items(exts)[i + 1..])) *
                               Wanted(db, min, eucs.inner, lengths), r.Ok?)
    ensures exts[i].ul.CanPrune(min) ==>
              r.Ok? && found == [] && pool.frames == old(pool.frames) && pool.store.ops == old(pool.store.ops)
    ensures lengths.Stops(|exts[i].ul.itemset|) ==> pool.Contents() == old(pool.Contents()) && |found| <= 1
    decreases |exts| - i, 1
  {
    hide BufferPool.Valid, BufferPool.Contents, UL, FitsWidths, ValidDatabase, After, Wanted, Branch, Family, Reports,
         PairsKept, Holds,
         UtilityLists.PrefixBody;
    var P, x, later := Elems(prefix), exts[i].Item(), Elems(Items(exts)[i + 1..]);
    assert ExtOf(db, twu, prefix, exts[i], pool.Contents());
    ReadyItems(db, twu, min, eucs.inner, prefix, exts, pool.Contents());
    var ul := exts[i].ul;
    if ul.CanPrune(min) {
      NothingWanted(db, twu, min, eucs.inner, lengths, ul, P, x, later);
      return Ok(()), [];
    }
    ULSums(db, P + {x}, After(twu, x));
    var body := GetBody(db, UL(db, P + {x}, After(twu, x)), exts[i].body, pool);
    if body.Err? {
      ReportsNothing(db, Branch(P, x, later) * Wanted(db, min, eucs.inner, lengths));
      return Err(body.error), [];
    }
    r, found := Expand(db, twu, min, lengths, prefix, Rp, prefixBody, exts, i, body.value, eucs, pool, out);
  }

  /** The same once the branch is known not to be pruned and its list is in memory. */
  method Expand(ghost db: Database, ghost twu: TwuMap, min: int, lengths: Lengths, prefix: seq<ItemId>, ghost Rp: ItemSet,
                prefixBody: seq<ULEntry>, exts: seq<Ext>, i: nat, body: seq<ULEntry>, eucs: Eucs, pool: BufferPool,
                out: ResultWriter)
    returns (r: Result<()>, ghost found: seq<Hui>)
    requires ValidDatabase(db) && FitsWidths(db) && pool.Valid() && pool.Idle() && i < |exts|
    requires Ready(db, twu, min, eucs.inner, prefix, exts, pool.Contents()) && prefixBody == PrefixBody(db, Elems(prefix), Rp)
    requires body == UL(db, Elems(prefix) + {exts[i].Item()}, After(twu, exts[i].Item()))
    modifies pool`frames, pool`used, pool`guards, pool.store, pool.eviction, out
    ensures pool.Valid() && pool.Idle() && Grows(old(pool.Contents()), pool.Contents())
    ensures Faults(pool, out) >= old(Faults(pool, out))
    ensures r.Err? ==> Excused(r.error, db, pool.budget, Faults(pool, out) > old(Faults(pool, out)))
    ensures out.huis == old(out.huis) + found
    ensures Reports(db, found, Branch(Elems(prefix), exts[i].Item(), Elems(Items(exts)[i + 1..])) *
                               Wanted(db, min, eucs.inner, lengths), r.Ok?)
    ensures lengths.Stops(|exts[i].ul.itemset|) ==> pool.Contents() == old(pool.Contents()) && |found| <= 1
    decreases |exts| - i, 0
  {
    hide BufferPool.Valid, BufferPool.Contents, UL, FitsWidths, ValidDatabase, After, Wanted, Branch, Family, Reports,
         PairsKept, Holds,
         UtilityLists.PrefixBody;
    var P, x, later := Elems(prefix), exts[i].Item(), Elems(Items(exts)[i + 1..]);
    ghost var W := Wanted(db, min, eucs.inner, lengths);
    assert ExtOf(db, twu, prefix, exts[i], pool.Contents());
    ReadyItems(db, twu, min, eucs.inner, prefix, exts, pool.Contents());
    var ul := exts[i].ul;
    r, found := WriteRoot(db, twu, min, eucs.inner, lengths, prefix, ul, x, out);
    assert found + [] == found;
    ReportsNothing(db, Family(P + {x}, later) * W);
    ReportsBranch(db, W, P, x, later, found, r.Ok?, [], false);
    if r.Err? { return r, found; }
    if lengths.Stops(|ul.itemset|) {
      StoppedFamily(db, min, eucs.inner, lengths, prefix, x, later);
      ReportsBranch(db, W, P, x, later, found, true, [], true);
      return Ok(()), found;
    }
    var built, next := BuildNext(db, twu, min, prefix, Rp, prefixBody, exts, i, body, eucs, pool);
    if built.Err? { return Err(built.error), found; }
    assert Elems(ul.itemset) == P + {x};
    CutItems(db, min, eucs.inner, lengths, P, x, later, Elems(Items(next)));
    ghost var deeper := [];
    NonEmptyPrefix(db, P + {x}, x, After(twu, x));
    if next != [] {
      r, deeper := Search(db, twu, min, lengths, ul.itemset, After(twu, x), body, next, eucs, pool, out);
    } else {
      EmptyFamily(db, P + {x}, W);
      assert Elems(Items(next)) == {};
    }
    ReportsBranch(db, W, P, x, later, found, true, deeper, r.Ok?);
    found := found + deeper;
  }

  /** The search over one level: every wanted itemset that extends the prefix by extension items, once. */
  method Search(ghost db: Database, ghost twu: TwuMap, min: int, lengths: Lengths, prefix: seq<ItemId>, ghost Rp: ItemSet,
                prefixBody: seq<ULEntry>, exts: seq<Ext>, eucs: Eucs, pool: BufferPool, out: ResultWriter)
    returns (r: Result<()>, ghost found: seq<Hui>)
    requires ValidDatabase(db) && FitsWidths(db) && pool.Valid() && pool.Idle()
    requires Ready(db, twu, min, eucs.inner, prefix, exts, pool.Contents()) && prefixBody == PrefixBody(db, Elems(prefix), Rp)
    modifies pool`frames, pool`used, pool`guards, pool.store, pool.eviction, out
    ensures pool.Valid() && pool.Idle() && Grows(old(pool.Contents()), pool.Contents())
    ensures Faults(pool, out) >= old(Faults(pool, out))
    ensures r.Err? ==> Excused(r.error, db, pool.budget, Faults(pool, out) > old(Faults(pool, out)))
    ensures out.huis == old(out.huis) + found
    ensures Reports(db, found, Family(Elems(prefix), Elems(Items(exts))) * Wanted(db, min, eucs.inner, lengths), r.Ok?)
    decreases |exts|, 2
  {
    hide Consistent, Overlay, ResidentBytes, PinnedBytes, Data, PagesOf, ChunkStore.Pages, ChunkStore.Valid,
         ChunkStore.Stored,
         UL, FitsWidths, ValidDatabase, After, Wanted, Branch, Family, Reports, PairsKept, Holds,
         UtilityLists.PrefixBody;
    var P := Elems(prefix);
    ghost var W := Wanted(db, min, eucs.inner, lengths);
    ghost var items := Items(exts);
    ReadyItems(db, twu, min, eucs.inner, prefix, exts, pool.Contents());
    found := [];
    ReportsLoopStart(db, P, items, W);
    for i := 0 to |exts|
      invariant pool.Valid() && pool.Idle() && Grows(old(pool.Contents()), pool.Contents())
      invariant Ready(db, twu, min, eucs.inner, prefix, exts, pool.Contents())
      invariant out.huis == old(out.huis) + found && Faults(pool, out) >= old(Faults(pool, out))
      invariant Reports(db, found, Covered(P, items, i) * W, true)
    {
      ghost var before, more := pool.Contents(), [];
      r, more := Visit(db, twu, min, lengths, prefix, Rp, prefixBody, exts, i, eucs, pool, out);
      ReportsLoopStep(db, P, items, i, W, found, true, more, r.Ok?);
      found := found + more;
      if r.Err? {
        ReportsLoopCut(db, P, items, i + 1, W, found, false);
        return;
      }
      ReadyGrows(db, twu, min, eucs.inner, prefix, exts, before, pool.Contents());
    }
    ReportsLoopCut(db, P, items, |items|, W, found, true);
    r := Ok(());
  }

  lemma NothingWanted(db: Database, twu: TwuMap, min: int, table: map<Pair, int>, lengths: Lengths, ul: UtilityList,
                      P: ItemSet, x: ItemId, later: ItemSet)
    requires ValidDatabase(db) && HeaderOf(ul, db, P + {x}, After(twu, x)) && later <= After(twu, x) && ul.CanPrune(min)
    ensures Reports(db, [], Branch(P, x, later) * Wanted(db, min, table, lengths), true)
  {
    forall X | X in Branch(P, x, later) ensures X !in Wanted(db, min, table, lengths) {
      PrunedBranch(db, twu, min, ul, P, x, later, X);
    }
    ReportsNothing(db, Branch(P, x, later) * Wanted(db, min, table, lengths));
    assert Branch(P, x, later) * Wanted(db, min, table, lengths) == iset{};
  }

  /** Writes the itemset of an extension if it is wanted. */
  method WriteRoot(ghost db: Database, ghost twu: TwuMap, min: int, ghost table: map<Pair, int>, lengths: Lengths,
                   ghost prefix: seq<ItemId>,
                   ul: UtilityList, ghost x: ItemId, out: ResultWriter) returns (r: Result<()>, ghost found: seq<Hui>)
    requires HeaderOf(ul, db, Elems(prefix) + {x}, After(twu, x)) && PairsKept(table, min, Elems(prefix) + {x})
    modifies out
    ensures out.Lost() >= old(out.Lost())
    ensures r.Err? ==> r.error == Io && out.Lost() > old(out.Lost())
    ensures out.huis == old(out.huis) + found && |found| <= 1
    ensures Reports(db, found, iset{Elems(prefix) + {x}} * Wanted(db, min, table, lengths), r.Ok?)
  {
    hide HeaderOf, PairsKept, Reports, Wanted, After;
    r, found := Ok(()), [];
    if ul.IsHighUtility(min) && lengths.Admits(|ul.itemset|) {
      r := out.WriteHui(ul.itemset, ul.sumIutils);
      if r.Err? {
        ReportsNothing(db, iset{Elems(prefix) + {x}} * Wanted(db, min, table, lengths));
        return;
      }
      found := [Hui(ul.itemset, ul.sumIutils)];
    }
    RootEmitted(db, twu, min, table, lengths, prefix, ul, x, found);
  }

  lemma RootEmitted(db: Database, twu: TwuMap, min: int, table: map<Pair, int>, lengths: Lengths, prefix: seq<ItemId>,
                    ul: UtilityList,
                    x: ItemId, found: seq<Hui>)
    requires HeaderOf(ul, db, Elems(prefix) + {x}, After(twu, x)) && PairsKept(table, min, Elems(prefix) + {x})
    requires found == if ul.IsHighUtility(min) && lengths.Admits(|ul.itemset|) then [Hui(ul.itemset, ul.sumIutils)] else []
    ensures Reports(db, found, iset{Elems(prefix) + {x}} * Wanted(db, min, table, lengths), true)
  {
    var X := Elems(prefix) + {x};
    ULSums(db, X, After(twu, x));
    DistinctCount(ul.itemset);
    assert X in Wanted(db, min, table, lengths) <==> ul.IsHighUtility(min) && lengths.Admits(|ul.itemset|);
    if X in Wanted(db, min, table, lengths) {
      EmitsSingle(db, found[0]);
      assert iset{X} * Wanted(db, min, table, lengths) == iset{X};
      EmitsReports(db, found, iset{X});
    } else {
      ReportsNothing(db, iset{X} * Wanted(db, min, table, lengths));
      assert iset{X} * Wanted(db, min, table, lengths) == iset{};
    }
  }

  lemma StoppedFamily(db: Database, min: int, table: map<Pair, int>, lengths: Lengths, prefix: seq<ItemId>, x: ItemId,
                      later: ItemSet)
    requires Distinct(prefix + [x]) && lengths.Stops(|prefix| + 1)
    ensures Reports(db, [], Family(Elems(prefix) + {x}, later) * Wanted(db, min, table, lengths), true)
  {
    assert Elems(prefix + [x]) == Elems(prefix) + {x};
    forall X | X in Family(Elems(prefix) + {x}, later) ensures X !in Wanted(db, min, table, lengths) {
      StoppedBranch(lengths, prefix, x, later, X);
    }
    ReportsNothing(db, Family(Elems(prefix) + {x}, later) * Wanted(db, min, table, lengths));
    assert Family(Elems(prefix) + {x}, later) * Wanted(db, min, table, lengths) == iset{};
  }

  lemma EmptyFamily(db: Database, P: ItemSet, W: iset<ItemSet>)
    ensures Reports(db, [], Family(P, {}) * W, true)
  {
    ReportsNothing(db, Family(P, {}) * W);
    assert Family(P, {}) * W == iset{};
  }

  lemma NonEmptyPrefix(db: Database, Q: ItemSet, x: ItemId, R: ItemSet)
    requires x in Q
    ensures PrefixBody(db, Q, R) == UL(db, Q, R)
  {
  }

  // ----- the run

  /** The lists after n transactions. */
  ghost predicate Collected(db: Database, twu: TwuMap, n: nat, perItem: map<ItemId, seq<ULEntry>>)
    requires n <= |db|
  {
    && (forall x :: x in perItem <==> x in twu && Supported(db[..n], {x}))
    && (forall x | x in perItem :: perItem[x] == UL(db[..n], {x}, After(twu, x)))
  }

  /** ... and after the items done of the next one. */
  ghost predicate Collecting(db: Database, twu: TwuMap, n: nat, done: ItemSet, perItem: map<ItemId, seq<ULEntry>>)
    requires n < |db|
  {
    && (forall x :: x in perItem <==> x in twu && (Supported(db[..n], {x}) || x in done))
    && (forall x | x in perItem :: perItem[x] == UL(db[..if x in done then n + 1 else n], {x}, After(twu, x)))
  }

  method SumUtilities(es: seq<ItemEntry>) returns (total: int)
    ensures total == TotalOf(es)
  {
    total := 0;
    for k := 0 to |es|
      invariant total == TotalOf(es[..k])
    {
      TotalSnoc(es, k);
      total := total + es[k].utility;
    }
    assert es[..|es|] == es;
  }

  /** One transaction of pass 2: each kept item gets an entry with its utility and what remains after it. */
  method CollectTransaction(ghost db: Database, ghost n: nat, twu: TwuMap, ghost t: Transaction, f: FilteredTransaction,
                            perItem: map<ItemId, seq<ULEntry>>)
    returns (lists: map<ItemId, seq<ULEntry>>)
    requires n < |db| && t == db[n] && ValidTransaction(t) && Filters(twu, t, f) && Collected(db, twu, n, perItem)
    ensures Collected(db, twu, n + 1, lists)
  {
    lists := perItem;
    var running := SumUtilities(f.items);
    assert f.items[0..] == f.items && f.items[..0] == [];
    for k := 0 to |f.items|
      invariant running == TotalOf(f.items[k..])
      invariant Collecting(db, twu, n, ItemsOf(f.items[..k]), lists)
    {
      var entry := f.items[k];
      TotalCons(f.items, k);
      running := running - entry.utility;
      SuffixUtility(twu, t, f, k);
      var e := ULEntry(f.tid, entry.utility, running);
      CollectEntry(db, twu, n, f, k, lists, e);
      lists := lists[entry.item := (if entry.item in lists then lists[entry.item] else []) + [e]];
    }
    assert f.items[..|f.items|] == f.items;
    CollectedStep(db, twu, n, lists);
  }

  lemma CollectEntry(db: Database, twu: TwuMap, n: nat, f: FilteredTransaction, k: nat, lists: map<ItemId,
                     seq<ULEntry>>, e: ULEntry)
    requires n < |db| && k < |f.items| && Filters(twu, db[n], f)
    requires Collecting(db, twu, n, ItemsOf(f.items[..k]), lists)
    requires f.items[k].item in twu && f.items[k].item in ItemsOf(db[n].items)
    requires e == Entry(db[n], {f.items[k].item}, After(twu, f.items[k].item))
    ensures var x := f.items[k].item;
            Collecting(db, twu, n, ItemsOf(f.items[..k + 1]), lists[x := (if x in lists then lists[x] else []) + [e]])
  {
    hide Filters, UL, After;
    var es, x := f.items, f.items[k].item;
    assert es[..k + 1] == es[..k] + [es[k]];
    ItemsOfSnoc(es[..k], es[k]);
    assert x !in ItemsOf(es[..k]) by { FilteredDistinct(twu, db[n], f, k); }
    ULStep(db, n, {x}, After(twu, x));
    if x !in lists {
      UnsupportedList(db[..n], {x}, After(twu, x));
    }
  }

  lemma FilteredDistinct(twu: TwuMap, t: Transaction, f: FilteredTransaction, k: nat)
    requires Filters(twu, t, f) && k < |f.items|
    ensures f.items[k].item !in ItemsOf(f.items[..k])
  {
    forall e | e in f.items[..k] ensures e.item != f.items[k].item {
      var i :| 0 <= i < k && f.items[i] == e;
      assert Less(twu, f.items[i].item, f.items[k].item);
    }
  }

  lemma UnsupportedList(db: Database, X: ItemSet, R: ItemSet)
    requires !Supported(db, X)
    ensures UL(db, X, R) == []
  {
    ULSums(db, X, R);
  }

  lemma CollectedStep(db: Database, twu: TwuMap, n: nat, lists: map<ItemId, seq<ULEntry>>)
    requires n < |db| && Collecting(db, twu, n, ItemsOf(db[n].items) * twu.Keys, lists)
    ensures Collected(db, twu, n + 1, lists)
  {
    forall x
      ensures x in lists <==> x in twu && Supported(db[..n + 1], {x})
      ensures x in lists ==> lists[x] == UL(db[..n + 1], {x}, After(twu, x))
    {
      PrefixStep(db, n, {x}, {});
      ULStep(db, n, {x}, After(twu, x));
      assert {x} <= ItemsOf(db[n].items) <==> x in ItemsOf(db[n].items);
    }
  }

  lemma CollectedSkip(db: Database, twu: TwuMap, n: nat, lists: map<ItemId, seq<ULEntry>>)
    requires n < |db| && Collected(db, twu, n, lists) && ItemsOf(db[n].items) * twu.Keys == {}
    ensures Collected(db, twu, n + 1, lists)
  {
    CollectedStep(db, twu, n, lists);
  }

  /** Pass 2: the co-occurrence table and the utility lists of the single items. Whatever is refused,
      the table is the function FinalTable of the database and of the room in the guard; no request
      is refused exactly when all co-occurring pairs fit, and then it is complete. */
  method Pass2(db: Database, twu: TwuMap, eucs: Eucs, guard: MemoryGuard)
    returns (lists: map<ItemId, seq<ULEntry>>, granted: bool)
    requires ValidDatabase(db) && eucs.inner == map[]
    modifies eucs, guard
    ensures Collected(db, twu, |db|, lists)
    ensures eucs.inner == FinalTable(db, twu, Room(old(guard.used), guard.budget))
    ensures guard.used == old(guard.used) + 32 * |eucs.inner|
    ensures granted ==> Complete(db, twu.Keys, eucs.inner)
    ensures granted <==> AllPairsFit(db, twu.Keys, old(guard.used), guard.budget)
  {
    hide FirstPairs, CoPairs, Room, FinalTable, AllPairs, NoneRefused, Complete, AllPairsFit, Collected, ValidDatabase;
    lists, granted := map[], true;
    ghost var room := Room(guard.used, guard.budget);
    CollectedStart(db, twu);
    TableStart(db, twu, room);
    for n := 0 to |db|
      invariant Collected(db, twu, n, lists)
      invariant eucs.inner == FinalTable(db[..n], twu, room)
      invariant guard.used == old(guard.used) + 32 * |eucs.inner|
      invariant Room(guard.used, guard.budget) == room - |eucs.inner|
      invariant granted <==> NoneRefused(db[..n], twu, room)
    {
      var ok;
      ok, lists := CollectAndTrack(db, n, twu, room, eucs, guard, lists);
      granted := granted && ok;
    }
    assert db[..|db|] == db;
    AllIn(db, twu, room);
    FitsRoom(db, twu.Keys, old(guard.used), guard.budget);
    NoneRefusedIs(db, twu, room);
    if granted { FinalComplete(db, twu, room); }
  }

  /** One transaction of pass 2. */
  method CollectAndTrack(db: Database, n: nat, twu: TwuMap, ghost room: nat, eucs: Eucs, guard: MemoryGuard,
                         perItem: map<ItemId, seq<ULEntry>>)
    returns (ok: bool, lists: map<ItemId, seq<ULEntry>>)
    requires ValidDatabase(db) && n < |db| && Collected(db, twu, n, perItem)
    requires eucs.inner == FinalTable(db[..n], twu, room) && Room(guard.used, guard.budget) == room - |eucs.inner|
    modifies eucs, guard
    ensures Collected(db, twu, n + 1, lists)
    ensures eucs.inner == FinalTable(db[..n + 1], twu, room) && Room(guard.used, guard.budget) == room - |eucs.inner|
    ensures guard.used == old(guard.used) + 32 * (|eucs.inner| - |old(eucs.inner)|)
    ensures NoneRefused(db[..n + 1], twu, room) <==> NoneRefused(db[..n], twu, room) && ok
  {
    hide *;
    ValidAt(db, n);
    var f := Apply(twu, db[n]);
    TableStep(db, n, twu, room);
    PairsOfIs(twu, db[n]);
    if f.Some? {
      var items := ItemIds(f.value.items);
      FilteredIds(twu, db[n], f.value);
      ok := eucs.AddTransaction(items, f.value.tu, guard);
      lists := CollectTransaction(db, n, twu, db[n], f.value, perItem);
    } else {
      TrackedUnfold(eucs.inner, [], db[n].tu, room - |eucs.inner|);
      CollectedSkip(db, twu, n, perItem);
      ok, lists := true, perItem;
    }
  }

  /** So far every pair met is in the table. */
  ghost predicate NoneRefused(db: Database, twu: TwuMap, room: nat) {
    Elems(AllPairs(db, twu)) <= FirstPairs(AllPairs(db, twu), room)
  }

  lemma CollectedStart(db: Database, twu: TwuMap)
    ensures Collected(db, twu, 0, map[])
  {
  }

  lemma ValidAt(db: Database, n: nat)
    requires ValidDatabase(db) && n < |db|
    ensures ValidTransaction(db[n])
  {
  }

  lemma TableStart(db: Database, twu: TwuMap, room: nat)
    ensures FinalTable(db[..0], twu, room) == map[] && NoneRefused(db[..0], twu, room)
  {
  }

  lemma TableStep(db: Database, n: nat, twu: TwuMap, room: nat)
    requires n < |db|
    ensures var before, after, pairs := FinalTable(db[..n], twu, room), FinalTable(db[..n + 1], twu, room), PairsOf(twu, db[n]);
            && |before| <= room && after == Tracked(before, pairs, db[n].tu, room - |before|)
            && (NoneRefused(db[..n + 1], twu, room) <==> NoneRefused(db[..n], twu, room) && forall p | p in pairs :: p in after)
  {
    hide *;
    FinalSnoc(db, n, twu, room);
    FinalKeys(db[..n], twu, room);
    FinalKeys(db[..n + 1], twu, room);
    FirstAppend(AllPairs(db[..n], twu), PairsOf(twu, db[n]), room);
    NoneRefusedIs(db[..n], twu, room);
    NoneRefusedIs(db[..n + 1], twu, room);
    var after := FinalTable(db[..n + 1], twu, room);
    assert forall p :: p in after <==> p in after.Keys;
  }

  lemma NoneRefusedIs(db: Database, twu: TwuMap, room: nat)
    ensures NoneRefused(db, twu, room) <==> Elems(AllPairs(db, twu)) <= FirstPairs(AllPairs(db, twu), room)
  {
  }

  method SumEntries(es: seq<ULEntry>) returns (sumI: int, sumR: int)
    ensures sumI == SumI(es) && sumR == SumR(es)
  {
    sumI, sumR := 0, 0;
    for k := 0 to |es|
      invariant sumI == SumI(es[..k]) && sumR == SumR(es[..k])
    {
      assert es[..k + 1] == es[..k] + [es[k]];
      SumsSnoc(es[..k], es[k]);
      sumI, sumR := sumI + es[k].iutils, sumR + es[k].rutils;
    }
    assert es[..|es|] == es;
  }

  /** The first level: one extension of the empty prefix per kept item, in processing order. */
  method FirstLevel(ghost db: Database, min: int, twu: TwuMap, lists: map<ItemId, seq<ULEntry>>, ghost table: map<Pair,
                    int>, ghost contents: Flat)
    returns (exts: seq<Ext>)
    requires ValidDatabase(db) && FitsWidths(db) && IsTwuFilter(db, min, twu) && Collected(db, twu, |db|, lists)
    ensures Ready(db, twu, min, table, [], exts, contents)
    ensures Elems(Items(exts)) == twu.Keys
  {
    hide UL, After, SumI, SumR, Ready, ExtOf, IsTwuFilter;
    var ids := SortedKeys(twu, lists.Keys);
    exts := [];
    for k := 0 to |ids|
      invariant |exts| == k && forall i | 0 <= i < k :: exts[i].Item() == ids[i] && ExtOf(db, twu, [], exts[i], contents)
    {
      var x := ids[k];
      assert x in Elems(ids);
      var es := lists[x];
      var sumI, sumR := SumEntries(es);
      var e := Ext(UtilityList([x], sumI, sumR, |es| % TWO_32), InMemory(es));
      FirstExt(db, twu, lists, e, x, contents);
      exts := exts + [e];
    }
    assert Items(exts) == ids;
    FirstReady(db, min, twu, lists, table, exts, contents);
  }

  lemma FirstExt(db: Database, twu: TwuMap, lists: map<ItemId, seq<ULEntry>>, e: Ext, x: ItemId, contents: Flat)
    requires FitsWidths(db) && Collected(db, twu, |db|, lists) && x in lists
    requires e == Ext(UtilityList([x], SumI(lists[x]), SumR(lists[x]), |lists[x]| % TWO_32), InMemory(lists[x]))
    ensures ExtOf(db, twu, [], e, contents) && e.Item() == x
  {
    assert db[..|db|] == db;
    ULSums(db, {x}, After(twu, x));
    assert [] + [x] == [x] && Elems([x]) == {x} && Elems<ItemId>([]) + {x} == {x};
  }

  lemma FirstReady(db: Database, min: int, twu: TwuMap, lists: map<ItemId, seq<ULEntry>>, table: map<Pair, int>,
                   exts: seq<Ext>, contents: Flat)
    requires IsTwuFilter(db, min, twu) && Collected(db, twu, |db|, lists)
    requires Elems(Items(exts)) == lists.Keys && SortedItems(twu, Items(exts))
    requires forall i | 0 <= i < |exts| :: ExtOf(db, twu, [], exts[i], contents)
    ensures Ready(db, twu, min, table, [], exts, contents) && lists.Keys == twu.Keys
  {
    hide ExtOf, UL, Less;
    assert db[..|db|] == db;
    forall k | 0 <= k < |exts| ensures PairsKept(table, min, Elems<ItemId>([]) + {exts[k].Item()}) {
    }
    forall a, b | 0 <= a < b < |exts| ensures Less(twu, exts[a].Item(), exts[b].Item()) {
      assert Items(exts)[a] == exts[a].Item() && Items(exts)[b] == exts[b].Item();
    }
  }

  /** The whole run. For any memory budget, pool budget, eviction order and spilling, a run that
      reports success has written exactly the wanted itemsets, once each, with their utilities; one that
      fails has written some of them and nothing else. It fails only if a disk operation or a line failed
      or if a list is larger than the whole pool. */
  method Run(db: Database, min: int, lengths: Lengths, guard: MemoryGuard, pool: BufferPool, out: ResultWriter)
    returns (r: Result<()>, ghost found: seq<Hui>, ghost table: map<Pair, int>)
    requires ValidDatabase(db) && FitsWidths(db) && pool.Valid() && pool.Idle()
    modifies guard, pool`frames, pool`used, pool`guards, pool.store, pool.eviction, out
    ensures pool.Valid() && pool.Idle() && Grows(old(pool.Contents()), pool.Contents())
    ensures Faults(pool, out) >= old(Faults(pool, out))
    ensures r.Err? ==> Excused(r.error, db, pool.budget, Faults(pool, out) > old(Faults(pool, out)))
    ensures out.huis == old(out.huis) + found
    ensures table == FinalTable(db, TwuOf(db, min), Room(old(guard.used), guard.budget))
    ensures Sound(db, found, Wanted(db, min, table, lengths))
    ensures r.Ok? ==> Emits(db, found, Wanted(db, min, table, lengths))
    ensures guard.used == old(guard.used) + 32 * |table|
    ensures Faults(pool, out) == old(Faults(pool, out)) && 20 * |db| <= pool.budget ==> r.Ok?
    ensures r.Ok? && AllPairsFit(db, PassingItems(db, min), old(guard.used), guard.budget) ==>
              match lengths
              case Unlimited => Emits(db, found, Huis(db, min))
              case Between(lo, hi) => Emits(db, found, iset X | X in Huis(db, min) && lo <= |X| <= hi)
  {
    hide Consistent, Overlay, ResidentBytes, PinnedBytes, Data, PagesOf, ChunkStore.Pages, ChunkStore.Valid,
         ChunkStore.Stored,
         UL, FitsWidths, ValidDatabase, After, Wanted, Family, Emits, PairsKept, Ready, IsTwuFilter, Collected,
         AllPairsFit, PassingItems, TwuOf, FinalTable, Room, Huis, Complete,
         LruPolicy.Valid, Codec.Valid, SortedItems;
    var filter := Compute(db, min);
    var eucs := new Eucs();
    var lists, granted := Pass2(db, filter.twu, eucs, guard);
    table := eucs.inner;
    var exts := FirstLevel(db, min, filter.twu, lists, table, pool.Contents());
    TwuOfIs(db, min);
    assert Elems<ItemId>([]) == {};
    r, found := Search(db, filter.twu, min, lengths, [], {}, [], exts, eucs, pool, out);
    WantedKept(db, min, filter.twu, table, lengths);
    if granted {
      CompleteWanted(db, min, filter.twu, table, lengths);
      AdmittedAre(db, min, lengths);
    }
  }

  /** What the lengths admit, spelled out. */
  lemma AdmittedAre(db: Database, min: int, lengths: Lengths)
    ensures (iset X | X in Huis(db, min) && lengths.Admits(|X|)) ==
            match lengths
            case Unlimited => Huis(db, min)
            case Between(lo, hi) => iset X | X in Huis(db, min) && lo <= |X| <= hi
  {
    hide Huis;
  }

  lemma WantedKept(db: Database, min: int, twu: TwuMap, table: map<Pair, int>, lengths: Lengths)
    requires ValidDatabase(db) && IsTwuFilter(db, min, twu)
    ensures Family({}, twu.Keys) * Wanted(db, min, table, lengths) == Wanted(db, min, table, lengths)
  {
    forall X | X in Wanted(db, min, table, lengths) ensures X in Family({}, twu.Keys) {
      HuiKept(db, min, twu, X);
    }
  }

  /** With a complete table, what is wanted is every high-utility itemset of admitted length. */
  lemma CompleteWanted(db: Database, min: int, twu: TwuMap, table: map<Pair, int>, lengths: Lengths)
    requires ValidDatabase(db) && IsTwuFilter(db, min, twu) && Complete(db, twu.Keys, table)
    ensures Wanted(db, min, table, lengths) == iset X | X in Huis(db, min) && lengths.Admits(|X|)
  {
    forall X | IsHui(db, min, X) ensures PairsKept(table, min, X) {
      HuiKept(db, min, twu, X);
      CompleteKeepsHuis(db, min, twu.Keys, table, X);
    }
  }

  // ----- what refused table entries cost, against the comment in eucs.rs

  /** What a run writes when the guard has room for so many table entries. */
  ghost function Written(db: Database, min: int, room: nat): iset<ItemSet> {
    Wanted(db, min, FinalTable(db, TwuOf(db, min), room), Unlimited)
  }

  /** The two items are together in a high-utility itemset. */
  ghost predicate TogetherInHui(db: Database, min: int, p: Pair) {
    p.0 < p.1 && exists X :: IsHui(db, min, X) && p.0 in X && p.1 in X
  }

  /** The pair is among the first that fit, and the transactions that reach it before a pair that does
      not fit have enough utility together. */
  ghost predicate PairSurvives(db: Database, min: int, room: nat, p: Pair) {
    var twu := TwuOf(db, min);
    var K := FirstPairs(AllPairs(db, twu), room);
    p in K && Recorded(db, twu, K, p) >= min
  }

  lemma SurvivesIffNotCut(db: Database, min: int, room: nat, x: ItemId, y: ItemId)
    requires ValidDatabase(db)
    ensures PairSurvives(db, min, room, PairOf(x, y)) <==> !Cuts(FinalTable(db, TwuOf(db, min), room), x, y, min)
  {
    hide TwuOf, FinalTable, FirstPairs, Recorded, AllPairs;
    FinalKeys(db, TwuOf(db, min), room);
    FinalAmounts(db, TwuOf(db, min), room, PairOf(x, y));
  }

  /** An itemset is written exactly if it is of high utility and all its pairs survive. */
  lemma WrittenIff(db: Database, min: int, room: nat, X: ItemSet)
    requires ValidDatabase(db)
    ensures X in Written(db, min, room) <==>
            IsHui(db, min, X) && forall x, y | x in X && y in X && x != y :: PairSurvives(db, min, room, PairOf(x, y))
  {
    hide PairSurvives, TwuOf, FinalTable, Cuts, IsHui;
    forall x, y ensures PairSurvives(db, min, room, PairOf(x, y)) <==> !Cuts(FinalTable(db, TwuOf(db, min), room), x, y, min) {
      SurvivesIffNotCut(db, min, room, x, y);
    }
  }

  /** At one threshold: a run is exact exactly when every pair of items that some high-utility itemset
      contains survives in the table, a matter of the database, the threshold and the room alone. */
  lemma ExactIffPairsSurvive(db: Database, min: int, room: nat, found: seq<Hui>)
    requires ValidDatabase(db) && Emits(db, found, Written(db, min, room))
    ensures Emits(db, found, Huis(db, min)) <==> forall p | TogetherInHui(db, min, p) :: PairSurvives(db, min, room, p)
  {
    hide PairSurvives, Written, IsHui, Emits;
    if forall p | TogetherInHui(db, min, p) :: PairSurvives(db, min, room, p) {
      forall X ensures X in Huis(db, min) <==> X in Written(db, min, room) {
        WrittenIff(db, min, room, X);
        forall x, y | X in Huis(db, min) && x in X && y in X && x != y ensures PairSurvives(db, min, room, PairOf(x, y)) {
          assert TogetherInHui(db, min, PairOf(x, y));
        }
      }
      assert Written(db, min, room) == Huis(db, min);
    }
    if Emits(db, found, Huis(db, min)) {
      forall p | TogetherInHui(db, min, p) ensures PairSurvives(db, min, room, p) {
        var X :| IsHui(db, min, X) && p.0 in X && p.1 in X;
        SameFamily(db, found, Huis(db, min), Written(db, min, room), X);
        WrittenIff(db, min, room, X);
        assert PairOf(p.0, p.1) == p;
      }
    }
  }

  /** One output lists only one family. */
  lemma SameFamily(db: Database, found: seq<Hui>, F: iset<ItemSet>, G: iset<ItemSet>, X: ItemSet)
    requires Emits(db, found, F) && Emits(db, found, G) && X in F
    ensures X in G
  {
    var k :| 0 <= k < |found| && Elems(Itemsets(found)[k]) == X;
  }

  /** At every threshold: the run finds all high-utility itemsets, whatever the threshold, exactly when
      there is room for all pairs of items that occur together. */
  lemma ExactAtEveryThreshold(db: Database, used: nat, budget: nat)
    requires ValidDatabase(db)
    ensures (forall min :: Written(db, min, Room(used, budget)) == Huis(db, min)) <==>
            AllPairsFit(db, PassingItems(db, 0), used, budget)
  {
    hide Room, CoPairs, TwuOf, PassingItems, FinalTable, Huis, Written, AllPairs, ValidDatabase;
    var room := Room(used, budget);
    FitsRoom(db, PassingItems(db, 0), used, budget);
    if |CoPairs(db, PassingItems(db, 0))| <= room {
      forall min ensures Written(db, min, room) == Huis(db, min) {
        CoPairsMost(db, min);
        TwuOfIs(db, min);
        FinalComplete(db, TwuOf(db, min), room);
        CompleteWritten(db, min, room);
      }
    } else {
      TwuOfIs(db, 0);
      var p := MissingPair(db, room);
      SomethingLost(db, room, p);
    }
  }

  lemma CompleteWritten(db: Database, min: int, room: nat)
    requires ValidDatabase(db) && IsTwuFilter(db, min, TwuOf(db, min))
    requires Complete(db, TwuOf(db, min).Keys, FinalTable(db, TwuOf(db, min), room))
    ensures Written(db, min, room) == Huis(db, min)
  {
    hide TwuOf, FinalTable, IsTwuFilter, Complete;
    CompleteWanted(db, min, TwuOf(db, min), FinalTable(db, TwuOf(db, min), room), Unlimited);
  }

  /** No threshold gives more pairs than zero. */
  lemma CoPairsMost(db: Database, min: int)
    requires ValidDatabase(db)
    ensures |CoPairs(db, PassingItems(db, min))| <= |CoPairs(db, PassingItems(db, 0))|
  {
    hide PassingItems, Twu;
    forall x | x in PassingItems(db, min) ensures x in PassingItems(db, 0) {
      PassingIs(db, min, x);
      PassingIs(db, 0, x);
      TwuNonNegative(db, {x});
    }
    var a, b := CoPairs(db, PassingItems(db, min)), CoPairs(db, PassingItems(db, 0));
    forall p | p in a ensures p in b { assert Cooccur(db, PassingItems(db, 0), (p.0, p.1)); }
    assert b == a + (b - a);
  }

  lemma TwuNonNegative(db: Database, X: ItemSet)
    requires ValidDatabase(db)
    ensures Twu(db, X) >= 0
  {
    CoverSumBelowTwu(db, X, {});
    UtilityOfNothing(db, X);
  }

  lemma {:induction false} UtilityOfNothing(db: Database, X: ItemSet)
    ensures CoverSum(db, X, {}) == 0
  {
    if db != [] {
      UtilityOfNothing(db[..|db| - 1], X);
      UtilityInAbsent(db[|db| - 1].items, {});
    }
  }

  lemma MissingPair(db: Database, room: nat) returns (p: Pair)
    requires ValidDatabase(db) && |CoPairs(db, TwuOf(db, 0).Keys)| > room
    ensures p in CoPairs(db, TwuOf(db, 0).Keys) && p !in FinalTable(db, TwuOf(db, 0), room)
  {
    hide CoPairs, TwuOf, FinalTable, AllPairs, FirstPairs;
    var twu := TwuOf(db, 0);
    AllIn(db, twu, room);
    FinalKeys(db, twu, room);
    p :| p in Elems(AllPairs(db, twu)) && p !in FirstPairs(AllPairs(db, twu), room);
  }

  /** A pair that is missing at threshold zero is itself an itemset that is lost. */
  lemma SomethingLost(db: Database, room: nat, p: Pair)
    requires ValidDatabase(db) && p in CoPairs(db, TwuOf(db, 0).Keys) && p !in FinalTable(db, TwuOf(db, 0), room)
    ensures {p.0, p.1} in Huis(db, 0) && {p.0, p.1} !in Written(db, 0, room)
  {
    hide TwuOf, FinalTable;
    var X := {p.0, p.1};
    assert Cooccur(db, TwuOf(db, 0).Keys, p) by { assert p == (p.0, p.1); }
    UtilityNonNegative(db, X, X);
    assert p == PairOf(p.0, p.1) && Cuts(FinalTable(db, TwuOf(db, 0), room), p.0, p.1, 0);
  }

  lemma {:induction false} UtilityNonNegative(db: Database, X: ItemSet, S: ItemSet)
    requires ValidDatabase(db)
    ensures CoverSum(db, X, S) >= 0
  {
    if db != [] {
      var n := |db| - 1;
      ValidPrefix(db, n);
      UtilityNonNegative(db[..n], X, S);
      assert ValidTransaction(db[n]);
      UtilityInNonNegative(db[n].items, S);
    }
  }

  /** With no room at all the table stays empty, and only single items are written. */
  lemma NoRoomOnlySingles(db: Database, min: int, X: ItemSet)
    requires ValidDatabase(db)
    ensures X in Written(db, min, 0) <==> IsHui(db, min, X) && |X| == 1
  {
    hide TwuOf, FinalTable;
    FinalKeys(db, TwuOf(db, min), 0);
    var table := FinalTable(db, TwuOf(db, min), 0);
    assert table == map[];
    if IsHui(db, min, X) {
      var x :| x in X;
      if |X| == 1 {
        assert |X - {x}| == 0;
        assert X == {x};
      } else {
        assert |X - {x}| == |X| - 1;
        var y :| y in X - {x};
        assert Cuts(table, x, y, min);
      }
    }
  }

  /** A transaction of two items. */
  function TwoItems(a: int, b: int): Transaction {
    Transaction(0, a + b, [ItemEntry(1, a), ItemEntry(2, b)])
  }

  lemma TwoItemsFacts(a: int, b: int)
    requires a >= 0 && b >= 0
    ensures var t := TwoItems(a, b);
            && ItemsOf(t.items) == {1, 2} && UtilityIn(t.items, {1, 2}) == a + b && ValidTransaction(t)
            && t.tu == a + b && t.tid == 0
  {
    var es := TwoItems(a, b).items;
    assert es[0] in es && es[1] in es;
    assert ItemsOf(es) == {1, 2};
    assert es[..1] == [es[0]] && es[..1][..0] == [];
    assert UtilityIn(es[..1], {1, 2}) == a;
  }

  lemma OneTransaction(t: Transaction, X: ItemSet)
    requires X <= ItemsOf(t.items)
    ensures CoverSum([t], X, X) == UtilityIn(t.items, X) && Twu([t], X) == t.tu
  {
    var db := [t];
    PrefixStep(db, 0, X, X);
    assert db[..1] == db && db[..0] == [];
  }

  lemma TwoItemsDatabase(a: int, b: int)
    requires a >= 0 && b >= 0 && 2 * (a + b) <= I64_MAX
    ensures var db := [TwoItems(a, b)];
            ValidDatabase(db) && FitsWidths(db) && IsHui(db, a + b, {1, 2})
  {
    hide UtilityIn, TwoItems, ValidTransaction;
    var t := TwoItems(a, b);
    var db := [t];
    TwoItemsFacts(a, b);
    assert {1, 2} <= ItemsOf(db[0].items) && {} <= ItemsOf(db[0].items);
    OneTransaction(t, {1, 2});
    OneTransaction(t, {});
  }

  lemma LostWithoutRoom(a: int, b: int, found: seq<Hui>)
    requires a >= 0 && b >= 0 && 2 * (a + b) <= I64_MAX && Emits([TwoItems(a, b)], found, Written([TwoItems(a, b)], a + b, 0))
    ensures !Emits([TwoItems(a, b)], found, Huis([TwoItems(a, b)], a + b))
    ensures forall k | 0 <= k < |found| :: Elems(found[k].itemset) != {1, 2}
  {
    hide TwoItems, Written, ValidDatabase, FitsWidths, IsHui;
    var db, min := [TwoItems(a, b)], a + b;
    TwoItemsDatabase(a, b);
    NoRoomOnlySingles(db, min, {1, 2});
    assert {1, 2} - {1} == {2};
    assert {1, 2} in Huis(db, min) && {1, 2} !in Written(db, min, 0);
    forall k | 0 <= k < |found| ensures Elems(found[k].itemset) != {1, 2} {
      assert Elems(Itemsets(found)[k]) in Written(db, min, 0);
    }
  }

  lemma NoRoomForTwo(a: int, b: int, used: nat, budget: nat)
    requires a >= 0 && b >= 0 && 2 * (a + b) <= I64_MAX && used + 32 > budget
    ensures !AllPairsFit([TwoItems(a, b)], PassingItems([TwoItems(a, b)], a + b), used, budget)
  {
    hide TwoItems, UtilityIn, Twu, PassingItems;
    var db := [TwoItems(a, b)];
    TwoItemsFacts(a, b);
    TwoItemsDatabase(a, b);
    assert {1} <= ItemsOf(db[0].items) && {2} <= ItemsOf(db[0].items) && {1, 2} <= ItemsOf(db[0].items);
    OneTransaction(TwoItems(a, b), {1});
    OneTransaction(TwoItems(a, b), {2});
    PassingIs(db, a + b, 1);
    PassingIs(db, a + b, 2);
    assert (1, 2) in CoPairs(db, PassingItems(db, a + b));
  }

  /** A run that loses results: one transaction of two items, the threshold at its utility, and less
      than one table entry of room in the guard. */
  method RefusalLosesResults(a: nat, b: nat, guard: MemoryGuard, pool: BufferPool, out: ResultWriter)
    returns (r: Result<()>, ghost found: seq<Hui>)
    requires 2 * (a + b) <= I64_MAX && pool.Valid() && pool.Idle() && guard.used + 32 > guard.budget
    modifies guard, pool`frames, pool`used, pool`guards, pool.store, pool.eviction, out
    ensures var db := [TwoItems(a, b)];
            && IsHui(db, a + b, {1, 2}) && !AllPairsFit(db, PassingItems(db, a + b), old(guard.used), guard.budget)
            && out.huis == old(out.huis) + found && (r.Ok? ==> !Emits(db, found, Huis(db, a + b)))
            && (r.Ok? ==> forall k | 0 <= k < |found| :: Elems(found[k].itemset) != {1, 2})
            && (Faults(pool, out) == old(Faults(pool, out)) && 20 <= pool.budget ==> r.Ok?)
  {
    var db := [TwoItems(a, b)];
    hide *;
    TwoItemsDatabase(a, b);
    NoRoomForTwo(a, b, guard.used, guard.budget);
    NoRoom(guard.used, guard.budget);
    ghost var table;
    r, found, table := Run(db, a + b, Unlimited, guard, pool, out);
    if r.Ok? {
      WrittenIs(db, a + b, table);
      LostWithoutRoom(a, b, found);
    }
  }

  lemma WrittenIs(db: Database, min: int, table: Table)
    requires table == FinalTable(db, TwuOf(db, min), 0)
    ensures Written(db, min, 0) == Wanted(db, min, table, Unlimited)
  {
  }
}
