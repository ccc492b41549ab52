/** EFIM and EFIM-Closed: depth-first search over offset projections with sub-tree and local utility
    bounds (src/mining/algorithms/efim.rs, src/mining/algorithms/efim_closed.rs). The closed variant
    differs only in the closure check before an itemset is written, so the two share one search. */
module Efim {
  import opened Huim
  import opened Options
  import opened Bytes
  import opened PageLayout
  import opened Storage
  import opened Lru
  import opened Pool
  import opened TwuFilter
  import opened UtilityLists
  import opened FilteredDb
  import opened Memory
  import opened Output

  /** A filtered transaction by columns, with the utility behind each position. */
  datatype OriginalTx = OriginalTx(items: seq<ItemId>, utilities: seq<int>, remainingUtilities: seq<int>)

  datatype ProjTx = ProjTx(txIdx: nat, offset: nat, prefixUtility: int, pathUtility: int)

  datatype EfimProj = InMemory(entries: seq<ProjTx>) | OnDisk(page: PageId, count: nat)

  // Contracts write this number out.
  const PROJ_ENTRY_SIZE: nat := 24

  // ----- the loaded database

  ghost predicate ColumnsOf(o: OriginalTx, es: seq<ItemEntry>, twu: TwuMap) {
    && |o.items| == |o.utilities| == |o.remainingUtilities| == |es|
    && (forall i | 0 <= i < |es| ::
          && o.items[i] == es[i].item && o.utilities[i] == es[i].utility
          && o.remainingUtilities[i] == UtilityIn(es, After(twu, es[i].item)))
  }

  ghost predicate Loaded(odb: seq<OriginalTx>, D: Database, twu: TwuMap) {
    && |odb| == |D| && (forall k | 0 <= k < |D| :: ColumnsOf(odb[k], D[k].items, twu))
  }

  /** The limits of the projection format: 32-bit transaction indices, 16-bit offsets, 64-bit utilities. */
  ghost predicate FitsProjection(D: Database) {
    && 24 * |D| < TWO_32 && TotalTu(D) <= I64_MAX
    && (forall k | 0 <= k < |D| :: |D[k].items| < 0x1_0000)
  }

  // ----- projections

  /** One projected transaction against the list entry it must carry: where the prefix's last item
      ends, and the utilities of the prefix and of everything from it on. */
  ghost predicate EntryMatches(D: Database, last: ItemId, p: ProjTx, e: ULEntry) {
    && p.txIdx == e.tid && p.txIdx < |D|
    && 1 <= p.offset <= |D[p.txIdx].items| && D[p.txIdx].items[p.offset - 1].item == last
    && p.prefixUtility == e.iutils && p.pathUtility == e.iutils + e.rutils
  }

  ghost predicate Matches(D: Database, last: ItemId, proj: seq<ProjTx>, es: seq<ULEntry>) {
    |proj| == |es| && forall k | 0 <= k < |es| :: EntryMatches(D, last, proj[k], es[k])
  }

  /** A projection is exactly the support of its prefix, with correct utilities. */
  ghost predicate Projects(D: Database, twu: TwuMap, P: ItemSet, last: ItemId, proj: seq<ProjTx>) {
    Matches(D, last, proj, UL(D, P, After(twu, last)))
  }

  /** In a sorted transaction, the entries from the offset on are the items after `last`. */
  lemma TailItems(D: Database, twu: TwuMap, a: nat, last: ItemId, offset: nat, i: nat)
    requires SortedDb(D, twu) && a < |D| && 1 <= offset <= |D[a].items| && D[a].items[offset - 1].item == last && i < |D[a].items|
    ensures D[a].items[i].item in After(twu, last) <==> i >= offset
  {
    var es := D[a].items;
    assert SortedEntries(twu, es) && es[i] in es && es[i].item in ItemsOf(es);
    if i >= offset {
      assert Less(twu, es[offset - 1].item, es[i].item);
    } else if i < offset - 1 {
      assert Less(twu, es[i].item, es[offset - 1].item);
    }
  }

  // ----- bytes

  ghost predicate ProjFits(proj: seq<ProjTx>) {
    forall k | 0 <= k < |proj| ::
      proj[k].txIdx < TWO_32 && proj[k].offset < 0x1_0000 && InI64(proj[k].prefixUtility) && InI64(proj[k].pathUtility)
  }

  /** Index, offset, two padding bytes, prefix utility, path utility. */
  function ProjTxBytes(p: ProjTx): (b: seq<Byte>)
    requires InI64(p.prefixUtility) && InI64(p.pathUtility)
    ensures |b| == 24
  {
    ToLe(p.txIdx, 4) + ToLe(p.offset, 2) + [0, 0] + I64ToLe(p.prefixUtility) + I64ToLe(p.pathUtility)
  }

  function ProjTxFromBytes(b: seq<Byte>): ProjTx
    requires |b| == 24
  {
    ProjTx(FromLe(b[0..4]), FromLe(b[4..6]), I64FromLe(b[8..16]), I64FromLe(b[16..24]))
  }

  ghost function ProjBytes(proj: seq<ProjTx>): (b: seq<Byte>)
    requires ProjFits(proj)
    ensures |b| == 24 * |proj|
  {
    if proj == [] then [] else ProjBytes(proj[..|proj| - 1]) + ProjTxBytes(proj[|proj| - 1])
  }

  lemma ProjTxRoundTrip(p: ProjTx)
    requires p.txIdx < TWO_32 && p.offset < 0x1_0000 && InI64(p.prefixUtility) && InI64(p.pathUtility)
    ensures ProjTxFromBytes(ProjTxBytes(p)) == p && ProjTxBytes(p)[6..8] == [0, 0]
  {
    var b := ProjTxBytes(p);
    var head := b[..16];
    assert b[0..4] == ToLe(p.txIdx, 4) && b[4..6] == ToLe(p.offset, 2) && b[8..16] == I64ToLe(p.prefixUtility);
    assert b == head + I64ToLe(p.pathUtility) && |head| == 16;
    assert |b| == 24 && b[16..24] == b[16..];
    assert b[16..] == I64ToLe(p.pathUtility);
    Widths();
    LeRoundTrip(p.txIdx, 4);
    LeRoundTrip(p.offset, 2);
    I64RoundTrip(p.prefixUtility);
    I64RoundTrip(p.pathUtility);
  }

  lemma {:induction false} ProjBytesAt(proj: seq<ProjTx>, k: nat)
    requires ProjFits(proj) && k < |proj|
    ensures ProjBytes(proj)[24 * k..24 * k + 24] == ProjTxBytes(proj[k])
  {
    var n := |proj| - 1;
    if k < n {
      ProjBytesAt(proj[..n], k);
      assert ProjBytes(proj)[24 * k..24 * k + 24] == ProjBytes(proj[..n])[24 * k..24 * k + 24];
    }
  }

  /** Decodes `count` entries, or as many as the buffer holds: a spilled projection comes back whole. */
  method DecodeProj(ghost proj: seq<ProjTx>, buf: seq<Byte>, count: nat) returns (result: seq<ProjTx>)
    requires ProjFits(proj) && buf == ProjBytes(proj) && count == |proj|
    ensures result == proj
  {
    result := [];
    var i := 0;
    while i < count && 24 * i + 24 <= |buf|
      invariant 0 <= i <= count && result == proj[..i]
    {
      ProjBytesAt(proj, i);
      ProjTxRoundTrip(proj[i]);
      result := result + [ProjTxFromBytes(buf[24 * i..24 * i + 24])];
      i := i + 1;
    }
  }

  method EncodeProj(proj: seq<ProjTx>) returns (bytes: seq<Byte>)
    requires ProjFits(proj)
    ensures bytes == ProjBytes(proj)
  {
    bytes := [];
    for k := 0 to |proj|
      invariant bytes == ProjBytes(proj[..k])
    {
      assert proj[..k + 1][..k] == proj[..k];
      bytes := bytes + ProjTxBytes(proj[k]);
    }
    assert proj[..|proj|] == proj;
  }

  lemma ProjectionFits(D: Database, twu: TwuMap, P: ItemSet, last: ItemId, proj: seq<ProjTx>)
    requires SortedDb(D, twu) && FitsProjection(D) && Projects(D, twu, P, last, proj) && P !! After(twu, last)
    ensures ProjFits(proj) && |proj| <= |D|
  {
    var R := After(twu, last);
    ULSums(D, P, R);
    forall k | 0 <= k < |proj|
      ensures proj[k].txIdx < TWO_32 && proj[k].offset < 0x1_0000 && InI64(proj[k].prefixUtility) && InI64(proj[k].pathUtility)
    {
      EntryPathFits(D, P, R, k);
      assert EntryMatches(D, last, proj[k], UL(D, P, R)[k]);
    }
  }

  lemma EntryPathFits(D: Database, P: ItemSet, R: ItemSet, k: nat)
    requires ValidDatabase(D) && TotalTu(D) <= I64_MAX && P !! R && k < |UL(D, P, R)|
    ensures var e := UL(D, P, R)[k]; 0 <= e.iutils <= I64_MAX && 0 <= e.iutils + e.rutils <= I64_MAX
  {
    assert D[..|D|] == D;
    var a := CoveringOwner(D, P, R, |D|, k);
    assert ValidTransaction(D[a]);
    TransactionFits(D[a], P);
    TransactionFits(D[a], P + R);
    UtilityInAdditive(D[a].items, P, R);
    UtilityInNonNegative(D[a].items, R);
    PrefixStep(D, a, {}, {});
    PrefixTotal(D, a + 1);
    PrefixTotal(D, a);
  }

  // ----- the bounds

  /** The sub-tree utility of extending P by x. */
  ghost function SubtreeUtility(D: Database, twu: TwuMap, P: ItemSet, x: ItemId): int {
    CoverSum(D, P + {x}, P) + CoverSum(D, P + {x}, {x}) + CoverSum(D, P + {x}, After(twu, x))
  }

  /** The local utility: the same with everything after P's last item. */
  ghost function LocalUtility(D: Database, twu: TwuMap, P: ItemSet, last: ItemId, x: ItemId): int {
    CoverSum(D, P + {x}, P) + CoverSum(D, P + {x}, After(twu, last))
  }

  /** su bounds the utility of every itemset in the branch of x. */
  lemma SubtreeBounds(D: Database, twu: TwuMap, P: ItemSet, x: ItemId, X: ItemSet)
    requires ValidDatabase(D) && x !in P && X in Branch(P, x, After(twu, x))
    ensures Utility(D, X) <= SubtreeUtility(D, twu, P, x)
  {
    var Q := P + {x};
    CoverSumAdditive(D, X, Q, X - Q);
    assert Q + (X - Q) == X;
    CoverSumAdditive(D, X, P, {x});
    CoverSumMonotone(D, Q, P, X, P);
    CoverSumMonotone(D, Q, {x}, X, {x});
    CoverSumMonotone(D, Q, After(twu, x), X, X - Q);
  }

  /** su <= lu, so the additional lu cut never removes an extension that su let through. */
  lemma SubtreeBelowLocal(D: Database, twu: TwuMap, P: ItemSet, last: ItemId, x: ItemId)
    requires ValidDatabase(D) && x in After(twu, last)
    ensures SubtreeUtility(D, twu, P, x) <= LocalUtility(D, twu, P, last, x)
  {
    var Q := P + {x};
    CoverSumAdditive(D, Q, {x}, After(twu, x));
    CoverSumMonotone(D, Q, After(twu, last), Q, {x} + After(twu, x));
  }

  /** The two maps after the first n transactions and, in transaction n, the items done. */
  ghost predicate BoundMaps(D: Database, twu: TwuMap, P: ItemSet, last: ItemId, n: nat, done: ItemSet, lu: map<ItemId,
                            int>, su: map<ItemId, int>)
    requires n <= |D|
  {
    && lu.Keys == su.Keys
    && (forall x :: x in su <==> x in After(twu, last) && (Supported(D[..n], P + {x}) || x in done))
    && (forall x | x in su ::
          var m := if x in done && n < |D| then n + 1 else n;
          su[x] == SubtreeUtility(D[..m], twu, P, x) && lu[x] == LocalUtility(D[..m], twu, P, last, x))
  }

  lemma BoundsStep(D: Database, twu: TwuMap, P: ItemSet, last: ItemId, n: nat, x: ItemId)
    requires n < |D|
    ensures var es := D[n].items;
            if P + {x} <= ItemsOf(es) then
              && SubtreeUtility(D[..n + 1], twu, P, x) ==
                 SubtreeUtility(D[..n], twu, P, x) + UtilityIn(es, P) + UtilityIn(es, {x}) + UtilityIn(es, After(twu, x))
              && LocalUtility(D[..n + 1], twu, P, last, x) ==
                 LocalUtility(D[..n], twu, P, last, x) + UtilityIn(es, P) + UtilityIn(es, After(twu, last))
              && Supported(D[..n + 1], P + {x})
            else
              && SubtreeUtility(D[..n + 1], twu, P, x) == SubtreeUtility(D[..n], twu, P, x)
              && LocalUtility(D[..n + 1], twu, P, last, x) == LocalUtility(D[..n], twu, P, last, x)
              && (Supported(D[..n + 1], P + {x}) <==> Supported(D[..n], P + {x}))
  {
    var Q := P + {x};
    PrefixStep(D, n, Q, P);
    PrefixStep(D, n, Q, {x});
    PrefixStep(D, n, Q, After(twu, x));
    PrefixStep(D, n, Q, After(twu, last));
  }

  lemma BoundsUnsupported(D: Database, twu: TwuMap, P: ItemSet, last: ItemId, x: ItemId)
    requires !Supported(D, P + {x})
    ensures SubtreeUtility(D, twu, P, x) == 0 && LocalUtility(D, twu, P, last, x) == 0
  {
    UnsupportedSums(D, P + {x}, P);
    UnsupportedSums(D, P + {x}, {x});
    UnsupportedSums(D, P + {x}, After(twu, x));
    UnsupportedSums(D, P + {x}, After(twu, last));
  }

  /** One item of one projected transaction. */
  lemma BoundMapsItem(D: Database, twu: TwuMap, P: ItemSet, last: ItemId, n: nat, done: ItemSet, lu: map<ItemId, int>,
                      su: map<ItemId, int>, x: ItemId)
    requires n < |D| && P <= ItemsOf(D[n].items) && x in ItemsOf(D[n].items) && x in After(twu, last) && x !in done
    requires BoundMaps(D, twu, P, last, n, done, lu, su)
    ensures var es := D[n].items;
            BoundMaps(D, twu, P, last, n, done + {x},
                      lu[x := Key(lu, x) + UtilityIn(es, P) + UtilityIn(es, After(twu, last))],
                      su[x := Key(su, x) + UtilityIn(es, P) + UtilityIn(es, {x}) + UtilityIn(es, After(twu, x))])
  {
    hide SubtreeUtility, LocalUtility, UtilityIn, ItemsOf, After, Supported;
    assert P + {x} <= ItemsOf(D[n].items);
    BoundsStep(D, twu, P, last, n, x);
    if !Supported(D[..n], P + {x}) { BoundsUnsupported(D[..n], twu, P, last, x); }
  }

  /** The maps once a whole transaction is done. */
  lemma BoundMapsNext(D: Database, twu: TwuMap, P: ItemSet, last: ItemId, n: nat, done: ItemSet, lu: map<ItemId, int>,
                      su: map<ItemId, int>)
    requires n < |D| && BoundMaps(D, twu, P, last, n, done, lu, su)
    requires P <= ItemsOf(D[n].items) && done == ItemsOf(D[n].items) * After(twu, last)
    ensures BoundMaps(D, twu, P, last, n + 1, {}, lu, su)
  {
    hide SubtreeUtility, LocalUtility, UtilityIn, After, Supported;
    forall x | x in After(twu, last)
      ensures Supported(D[..n + 1], P + {x}) <==> Supported(D[..n], P + {x}) || x in done
      ensures x in su ==>
                su[x] == SubtreeUtility(D[..n + 1], twu, P, x) && lu[x] == LocalUtility(D[..n + 1], twu, P, last, x)
    {
      assert P + {x} <= ItemsOf(D[n].items) <==> x in ItemsOf(D[n].items);
      BoundsStep(D, twu, P, last, n, x);
    }
  }

  /** Transactions without P change nothing. */
  lemma BoundMapsGap(D: Database, twu: TwuMap, P: ItemSet, last: ItemId, n: nat, m: nat, lu: map<ItemId, int>,
                     su: map<ItemId, int>)
    requires n <= m <= |D| && BoundMaps(D, twu, P, last, n, {}, lu, su)
    requires forall k | n <= k < m :: !(P <= ItemsOf(D[k].items))
    ensures BoundMaps(D, twu, P, last, m, {}, lu, su)
  {
    hide UtilityIn, After, Supported, CoverSum;
    forall x
      ensures Supported(D[..m], P + {x}) <==> Supported(D[..n], P + {x})
      ensures SubtreeUtility(D[..m], twu, P, x) == SubtreeUtility(D[..n], twu, P, x)
      ensures LocalUtility(D[..m], twu, P, last, x) == LocalUtility(D[..n], twu, P, last, x)
    {
      NoSuperset(D, P, P + {x}, n, m);
      GapSums(D, P + {x}, P, n, m);
      GapSums(D, P + {x}, {x}, n, m);
      GapSums(D, P + {x}, After(twu, x), n, m);
      GapSums(D, P + {x}, After(twu, last), n, m);
    }
  }

  lemma NoSuperset(D: Database, P: ItemSet, Q: ItemSet, n: nat, m: nat)
    requires n <= m <= |D| && P <= Q && forall k | n <= k < m :: !(P <= ItemsOf(D[k].items))
    ensures forall k | n <= k < m :: !(Q <= ItemsOf(D[k].items))
  {
  }

  /** The inner loop over one projected transaction. */
  method BoundTransaction(odb: seq<OriginalTx>, ghost D: Database, ghost twu: TwuMap, ghost P: ItemSet,
                          ghost last: ItemId, tx: ProjTx,
                          lu0: map<ItemId, int>, su0: map<ItemId, int>)
    returns (lu: map<ItemId, int>, su: map<ItemId, int>)
    requires SortedDb(D, twu) && Loaded(odb, D, twu) && tx.txIdx < |D| && P <= ItemsOf(D[tx.txIdx].items)
    requires EntryMatches(D, last, tx, Entry(D[tx.txIdx], P, After(twu, last)))
    requires BoundMaps(D, twu, P, last, tx.txIdx, {}, lu0, su0)
    ensures BoundMaps(D, twu, P, last, tx.txIdx + 1, {}, lu, su)
  {
    hide BoundMaps, SortedDb, UtilityIn, After;
    lu, su := lu0, su0;
    var o := odb[tx.txIdx];
    ghost var es := D[tx.txIdx].items;
    assert ColumnsOf(o, es, twu);
    assert ItemsOf(es[tx.offset..tx.offset]) == {};
    for i := tx.offset to |o.items|
      invariant BoundMaps(D, twu, P, last, tx.txIdx, ItemsOf(es[tx.offset..i]), lu, su)
    {
      var x := o.items[i];
      TailItem(D, twu, tx.txIdx, last, tx.offset, i);
      BoundMapsItem(D, twu, P, last, tx.txIdx, ItemsOf(es[tx.offset..i]), lu, su, x);
      lu := lu[x := Key(lu, x) + tx.pathUtility];
      su := su[x := Key(su, x) + (tx.prefixUtility + o.utilities[i] + o.remainingUtilities[i])];
    }
    TailSet(D, twu, tx.txIdx, last, tx.offset);
    assert es[tx.offset..|o.items|] == es[tx.offset..];
    BoundMapsNext(D, twu, P, last, tx.txIdx, ItemsOf(es[tx.offset..]), lu, su);
  }

  lemma TailItem(D: Database, twu: TwuMap, a: nat, last: ItemId, offset: nat, i: nat)
    requires SortedDb(D, twu) && a < |D| && 1 <= offset <= i < |D[a].items| && D[a].items[offset - 1].item == last
    ensures var es := D[a].items;
            && es[i].item in After(twu, last) && es[i].item in ItemsOf(es) && es[i].item !in ItemsOf(es[offset..i])
            && ItemsOf(es[offset..i + 1]) == ItemsOf(es[offset..i]) + {es[i].item}
            && UtilityIn(es, {es[i].item}) == es[i].utility
  {
    var es := D[a].items;
    TailItems(D, twu, a, last, offset, i);
    assert ValidTransaction(D[a]);
    UtilityInSingle(es, i);
    assert es[i] in es;
    assert es[offset..i + 1] == es[offset..i] + [es[i]];
    ItemsOfSnoc(es[offset..i], es[i]);
    forall e | e in es[offset..i] ensures e.item != es[i].item {
      var j :| 0 <= j < i - offset && es[offset..i][j] == e;
      assert es[offset + j] == e;
    }
  }

  lemma TailSet(D: Database, twu: TwuMap, a: nat, last: ItemId, offset: nat)
    requires SortedDb(D, twu) && a < |D| && 1 <= offset <= |D[a].items| && D[a].items[offset - 1].item == last
    ensures ItemsOf(D[a].items[offset..]) == ItemsOf(D[a].items) * After(twu, last)
  {
    var es := D[a].items;
    forall x ensures x in ItemsOf(es[offset..]) <==> x in ItemsOf(es) && x in After(twu, last) {
      if x in ItemsOf(es[offset..]) {
        var i := ItemAt(es[offset..], x);
        assert es[offset + i] in es;
        TailItems(D, twu, a, last, offset, offset + i);
      }
      if x in ItemsOf(es) && x in After(twu, last) {
        var i := ItemAt(es, x);
        TailItems(D, twu, a, last, offset, i);
        assert es[offset..][i - offset] == es[i];
      }
    }
  }

  /** The first loop of a search node: both bounds for every item behind the prefix. */
  method ComputeBounds(odb: seq<OriginalTx>, ghost D: Database, ghost twu: TwuMap, ghost P: ItemSet, ghost last: ItemId,
                       proj: seq<ProjTx>)
    returns (lu: map<ItemId, int>, su: map<ItemId, int>)
    requires SortedDb(D, twu) && Loaded(odb, D, twu) && Projects(D, twu, P, last, proj)
    ensures BoundsOf(D, twu, P, last, lu, su)
  {
    hide SortedDb, Loaded, UL, UtilityIn, SubtreeUtility, LocalUtility, After, BoundMaps;
    lu, su := map[], map[];
    ghost var R, n: nat := After(twu, last), 0;
    BoundsStart(D, twu, P, last);
    SortedIsValid(D, twu);
    for k := 0 to |proj|
      invariant n <= |D| && k == |UL(D[..n], P, R)|
      invariant BoundMaps(D, twu, P, last, n, {}, lu, su)
    {
      ghost var a := NextEntry(D, P, R, n);
      assert EntryMatches(D, last, proj[k], UL(D, P, R)[k]);
      SortedIsValid(D, twu);
      BoundMapsGap(D, twu, P, last, n, a, lu, su);
      LoadedAt(odb, D, twu, a);
      lu, su := BoundTransaction(odb, D, twu, P, last, proj[k], lu, su);
      ULStep(D, a, P, R);
      n := a + 1;
    }
    NoMoreEntries(D, P, R, n);
    BoundMapsGap(D, twu, P, last, n, |D|, lu, su);
    BoundsEnd(D, twu, P, last, lu, su);
  }

  lemma SortedIsValid(D: Database, twu: TwuMap)
    requires SortedDb(D, twu)
    ensures ValidDatabase(D) && forall k | 0 <= k < |D| :: D[k].tid == k
  {
  }

  lemma LoadedAt(odb: seq<OriginalTx>, D: Database, twu: TwuMap, a: nat)
    requires Loaded(odb, D, twu) && a < |D|
    ensures |odb| == |D| && ColumnsOf(odb[a], D[a].items, twu)
  {
  }

  lemma BoundsStart(D: Database, twu: TwuMap, P: ItemSet, last: ItemId)
    ensures BoundMaps(D, twu, P, last, 0, {}, map[], map[]) && UL(D[..0], P, After(twu, last)) == []
  {
  }

  lemma BoundsEnd(D: Database, twu: TwuMap, P: ItemSet, last: ItemId, lu: map<ItemId, int>, su: map<ItemId, int>)
    requires BoundMaps(D, twu, P, last, |D|, {}, lu, su)
    ensures lu.Keys == su.Keys
    ensures forall x :: x in su <==> x in After(twu, last) && Supported(D, P + {x})
    ensures forall x | x in su :: su[x] == SubtreeUtility(D, twu, P, x) && lu[x] == LocalUtility(D, twu, P, last, x)
  {
    assert D[..|D|] == D;
  }

  // ----- projecting

  /** `items[from..].iter().position(|x| x == item)`, as an absolute position. */
  method PositionFrom(items: seq<ItemId>, from: nat, item: ItemId) returns (pos: Option<nat>)
    requires from <= |items|
    ensures pos.None? <==> item !in items[from..]
    ensures pos.Some? ==> from <= pos.value < |items| && items[pos.value] == item && item !in items[from..pos.value]
  {
    var i := from;
    while i < |items|
      invariant from <= i <= |items| && item !in items[from..i]
    {
      if items[i] == item { return Some(i); }
      i := i + 1;
    }
    pos := None;
  }

  /** What a found position means for the extended prefix. */
  lemma ExtendedEntry(D: Database, twu: TwuMap, odb: seq<OriginalTx>, P: ItemSet, last: ItemId, tx: ProjTx, x: ItemId,
                      pos: Option<nat>)
    requires SortedDb(D, twu) && Loaded(odb, D, twu) && FitsProjection(D) && tx.txIdx < |D| && P <= ItemsOf(D[tx.txIdx].items)
    requires EntryMatches(D, last, tx, Entry(D[tx.txIdx], P, After(twu, last))) && x in After(twu, last) && x !in P
    requires pos.None? ==> x !in odb[tx.txIdx].items[tx.offset..]
    requires pos.Some? ==> tx.offset <= pos.value < |odb[tx.txIdx].items| && odb[tx.txIdx].items[pos.value] == x
    ensures pos.Some? <==> P + {x} <= ItemsOf(D[tx.txIdx].items)
    ensures pos.Some? ==>
              var o := odb[tx.txIdx];
              var pu := tx.prefixUtility + o.utilities[pos.value];
              EntryMatches(D, x, ProjTx(tx.txIdx, (pos.value + 1) % 0x1_0000, pu, pu + o.remainingUtilities[pos.value]),
                           Entry(D[tx.txIdx], P + {x}, After(twu, x)))
  {
    hide UtilityIn, After, ValidTransaction;
    var a := tx.txIdx;
    var es, o := D[a].items, odb[a];
    assert ColumnsOf(o, es, twu);
    if pos.Some? {
      assert es[pos.value] in es;
      FoundUtility(D, twu, a, P, x, pos.value);
      assert (pos.value + 1) % 0x1_0000 == pos.value + 1;
    }
    if P + {x} <= ItemsOf(es) {
      assert x in P + {x};
      var i := ItemAt(es, x);
      TailItems(D, twu, a, last, tx.offset, i);
      assert o.items[tx.offset..][i - tx.offset] == x;
    }
  }

  lemma FoundUtility(D: Database, twu: TwuMap, a: nat, P: ItemSet, x: ItemId, k: nat)
    requires SortedDb(D, twu) && FitsProjection(D) && a < |D| && k < |D[a].items| && D[a].items[k].item == x && x !in P
    ensures UtilityIn(D[a].items, P + {x}) == UtilityIn(D[a].items, P) + D[a].items[k].utility
    ensures k + 1 < 0x1_0000
  {
    assert ValidTransaction(D[a]);
    UtilityInSingle(D[a].items, k);
    UtilityInAdditive(D[a].items, P, {x});
  }

  /** The projection of P+x from the projection of P, and u(P+x) with it. */
  method Project(odb: seq<OriginalTx>, ghost D: Database, ghost twu: TwuMap, ghost P: ItemSet, ghost last: ItemId,
                 proj: seq<ProjTx>, x: ItemId)
    returns (newProj: seq<ProjTx>, itemUtil: int)
    requires SortedDb(D, twu) && Loaded(odb, D, twu) && FitsProjection(D) && Projects(D, twu, P, last, proj)
    requires x in After(twu, last) && x !in P
    ensures Projects(D, twu, P + {x}, x, newProj) && itemUtil == Utility(D, P + {x})
  {
    hide *;
    newProj, itemUtil := [], 0;
    ghost var R, Q, Rx, n: nat, es := After(twu, last), P + {x}, After(twu, x), 0, [];
    SortedIsValid(D, twu);
    ProjectStart(D, x, P, Q, R, Rx);
    ProjectsIs(D, twu, P, last, proj);
    for k := 0 to |proj|
      invariant n <= |D| && k == |UL(D[..n], P, R)| && es == UL(D[..n], Q, Rx)
      invariant Matches(D, x, newProj, es) && itemUtil == SumI(es)
    {
      ghost var a := NextEntry(D, P, R, n);
      var tx := proj[k];
      ProjectsTx(D, twu, P, last, proj, k, a);
      LoadedAt(odb, D, twu, a);
      NoSuperset(D, P, Q, n, a);
      ULGap(D, Q, Rx, n, a);
      ULStep(D, a, P, R);
      ULStep(D, a, Q, Rx);
      var o := odb[tx.txIdx];
      LoadedTx(odb, D, twu, a, tx, last, P);
      var pos := PositionFrom(o.items, tx.offset, x);
      ExtendedEntry(D, twu, odb, P, last, tx, x, pos);
      if pos.Some? {
        var pu := tx.prefixUtility + o.utilities[pos.value];
        var p := ProjTx(tx.txIdx, (pos.value + 1) % 0x1_0000, pu, pu + o.remainingUtilities[pos.value]);
        SumsSnoc(es, Entry(D[a], Q, Rx));
        MatchesSnoc(D, x, newProj, es, p, Entry(D[a], Q, Rx));
        itemUtil := itemUtil + pu;
        newProj := newProj + [p];
        es := es + [Entry(D[a], Q, Rx)];
      }
      n := a + 1;
    }
    NoMoreEntries(D, P, R, n);
    NoSuperset(D, P, Q, n, |D|);
    ULGap(D, Q, Rx, n, |D|);
    assert D[..|D|] == D;
    ULSums(D, Q, Rx);
    ProjectsFrom(D, twu, Q, x, newProj);
  }

  lemma ProjectsIs(D: Database, twu: TwuMap, P: ItemSet, last: ItemId, proj: seq<ProjTx>)
    requires Projects(D, twu, P, last, proj)
    ensures |proj| == |UL(D, P, After(twu, last))|
  {
  }

  lemma ProjectsFrom(D: Database, twu: TwuMap, P: ItemSet, last: ItemId, proj: seq<ProjTx>)
    requires Matches(D, last, proj, UL(D, P, After(twu, last)))
    ensures Projects(D, twu, P, last, proj)
  {
  }

  lemma ProjectsTx(D: Database, twu: TwuMap, P: ItemSet, last: ItemId, proj: seq<ProjTx>, k: nat, a: nat)
    requires Projects(D, twu, P, last, proj) && a < |D| && D[a].tid == a && k < |UL(D, P, After(twu, last))|
    requires UL(D, P, After(twu, last))[k] == Entry(D[a], P, After(twu, last))
    ensures k < |proj| && EntryMatches(D, last, proj[k], Entry(D[a], P, After(twu, last))) && proj[k].txIdx == a
  {
  }

  lemma LoadedTx(odb: seq<OriginalTx>, D: Database, twu: TwuMap, a: nat, tx: ProjTx, last: ItemId, P: ItemSet)
    requires a < |D| && |odb| == |D| && ColumnsOf(odb[a], D[a].items, twu) && tx.txIdx == a
    requires EntryMatches(D, last, tx, Entry(D[a], P, After(twu, last)))
    ensures tx.offset <= |odb[a].items| == |odb[a].utilities| == |odb[a].remainingUtilities|
    ensures tx.prefixUtility == UtilityIn(D[a].items, P)
    ensures forall i | 0 <= i < |odb[a].items| :: odb[a].utilities[i] == D[a].items[i].utility
  {
  }

  lemma MatchesSnoc(D: Database, last: ItemId, proj: seq<ProjTx>, es: seq<ULEntry>, p: ProjTx, e: ULEntry)
    requires Matches(D, last, proj, es) && EntryMatches(D, last, p, e)
    ensures Matches(D, last, proj + [p], es + [e]) && p.prefixUtility == e.iutils
  {
  }

  lemma ProjectStart(D: Database, x: ItemId, P: ItemSet, Q: ItemSet, R: ItemSet, Rx: ItemSet)
    ensures UL(D[..0], P, R) == [] && UL(D[..0], Q, Rx) == [] && SumI([]) == 0 && Matches(D, x, [], [])
  {
  }

  // ----- the closure check

  /** Looks for an item outside the itemset that every projected transaction contains, among the items
      of the first one. */
  method IsClosed(odb: seq<OriginalTx>, ghost D: Database, ghost twu: TwuMap, proj: seq<ProjTx>, prefix: seq<ItemId>,
                  ghost last: ItemId)
    returns (closed: bool)
    requires SortedDb(D, twu) && Loaded(odb, D, twu) && Projects(D, twu, Elems(prefix), last, proj) && proj != []
    ensures closed <==> Closed(D, Elems(prefix))
  {
    hide SortedDb, Loaded, UL, UtilityIn, After, Closed;
    ghost var X := Elems(prefix);
    closed := true;
    ProjectedAt(odb, D, twu, X, last, proj, 0);
    var first := odb[proj[0].txIdx];
    for c := 0 to |first.items|
      invariant closed ==> forall i | 0 <= i < c && first.items[i] !in prefix :: Misses(D, X, first.items[i])
      invariant !closed ==>
                  exists i :: 0 <= i < |first.items| && first.items[i] !in prefix && !Misses(D, X, first.items[i])
    {
      var candidate := first.items[c];
      if closed && candidate !in prefix {
        var inAll := true;
        var k := 1;
        while k < |proj| && inAll
          invariant 1 <= k <= |proj|
          invariant inAll ==> forall j | 0 <= j < k :: proj[j].txIdx < |odb| && candidate in odb[proj[j].txIdx].items
          invariant !inAll ==> Misses(D, X, candidate)
        {
          ProjectedAt(odb, D, twu, X, last, proj, k);
          if candidate !in odb[proj[k].txIdx].items {
            inAll := false;
          }
          k := k + 1;
        }
        if inAll {
          CommonEverywhere(odb, D, twu, X, last, proj, candidate);
          closed := false;
        }
      }
    }
    ClosedByFirst(odb, D, twu, X, last, proj, first);
    ClosedByItems(D, X);
  }

  lemma ProjectedAt(odb: seq<OriginalTx>, D: Database, twu: TwuMap, X: ItemSet, last: ItemId, proj: seq<ProjTx>, k: nat)
    requires SortedDb(D, twu) && Loaded(odb, D, twu) && Projects(D, twu, X, last, proj) && k < |proj|
    ensures proj[k].txIdx < |odb| == |D| && X <= ItemsOf(D[proj[k].txIdx].items)
    ensures Elems(odb[proj[k].txIdx].items) == ItemsOf(D[proj[k].txIdx].items)
    ensures forall y | y !in odb[proj[k].txIdx].items :: Misses(D, X, y)
  {
    var R := After(twu, last);
    assert EntryMatches(D, last, proj[k], UL(D, X, R)[k]);
    assert D[..|D|] == D;
    var a := CoveringOwner(D, X, R, |D|, k);
    assert D[a].tid == a;
    var es, o := D[a].items, odb[a];
    assert ColumnsOf(o, es, twu);
    assert o.items == ItemIds(es);
    ItemIdsElems(es);
  }

  lemma {:induction false} CoveringOwner(D: Database, P: ItemSet, R: ItemSet, n: nat, k: nat) returns (a: nat)
    requires n <= |D| && k < |UL(D[..n], P, R)|
    ensures a < n && UL(D[..n], P, R)[k] == Entry(D[a], P, R) && P <= ItemsOf(D[a].items)
  {
    ULStep(D, n - 1, P, R);
    if k < |UL(D[..n - 1], P, R)| {
      a := CoveringOwner(D, P, R, n - 1, k);
    } else {
      a := n - 1;
    }
  }

  /** The projection lists every supporting transaction, so an item in all of them is missed nowhere. */
  lemma CommonEverywhere(odb: seq<OriginalTx>, D: Database, twu: TwuMap, X: ItemSet, last: ItemId, proj: seq<ProjTx>, y: ItemId)
    requires SortedDb(D, twu) && Loaded(odb, D, twu) && Projects(D, twu, X, last, proj)
    requires forall j | 0 <= j < |proj| :: proj[j].txIdx < |odb| && y in odb[proj[j].txIdx].items
    ensures !Misses(D, X, y)
  {
    var R := After(twu, last);
    forall k | 0 <= k < |D| && X <= ItemsOf(D[k].items) ensures y in ItemsOf(D[k].items) {
      EntryAt(D, X, R, k);
      var q := |UL(D[..k], X, R)|;
      assert EntryMatches(D, last, proj[q], UL(D, X, R)[q]);
      ProjectedAt(odb, D, twu, X, last, proj, q);
      assert y in Elems(odb[proj[q].txIdx].items);
    }
  }

  lemma ClosedByFirst(odb: seq<OriginalTx>, D: Database, twu: TwuMap, X: ItemSet, last: ItemId, proj: seq<ProjTx>,
                      first: OriginalTx)
    requires SortedDb(D, twu) && Loaded(odb, D, twu) && Projects(D, twu, X, last, proj) && proj != []
    requires proj[0].txIdx < |odb| && first == odb[proj[0].txIdx]
    ensures NoCommonItem(D, X) <==> forall i | 0 <= i < |first.items| && first.items[i] !in X :: Misses(D, X, first.items[i])
  {
    ProjectedAt(odb, D, twu, X, last, proj, 0);
    if forall i | 0 <= i < |first.items| && first.items[i] !in X :: Misses(D, X, first.items[i]) {
      forall y | y !in X ensures Misses(D, X, y) {
        if y in first.items {
          var i :| 0 <= i < |first.items| && first.items[i] == y;
        }
      }
    }
  }

  // ----- the search

  /** What a run must list. */
  ghost function Wanted(db: Database, min: int, closedOnly: bool): iset<ItemSet> {
    iset X: ItemSet | IsHui(db, min, X) && (closedOnly ==> Closed(db, X))
  }

  ghost predicate InSomeBranch(twu: TwuMap, P: ItemSet, done: ItemSet, X: ItemSet) {
    exists x :: x in done && X in Branch(P, x, After(twu, x))
  }

  /** The branches of the extensions processed so far, in whatever order. */
  ghost function Branches(twu: TwuMap, P: ItemSet, done: ItemSet): iset<ItemSet> {
    iset X: ItemSet | InSomeBranch(twu, P, done, X)
  }

  ghost predicate Holds(proj: EfimProj, contents: Flat, entries: seq<ProjTx>) {
    match proj
    case InMemory(es) => es == entries
    case OnDisk(p, count) => ProjFits(entries) && count == |entries| && p in contents && contents[p] == ProjBytes(entries)
  }

  /** A new page holds the projection. */
  ghost predicate Spilled(before: Flat, after: Flat, entries: seq<ProjTx>) {
    ProjFits(entries) && exists p :: p !in before && p in after && after[p] == ProjBytes(entries)
  }

  lemma SpilledGrows(before: Flat, mid: Flat, after: Flat, entries: seq<ProjTx>)
    requires Spilled(before, mid, entries) && Grows(mid, after)
    ensures Spilled(before, after, entries)
  {
    hide ProjBytes, ProjFits;
  }

  /** How work can be lost: a disk operation failed, or a projection is larger than the whole pool. */
  ghost predicate Excused(e: Error, D: Database, budget: nat, faulted: bool) {
    (e == Io && faulted) || (e == PoolFull && 24 * |D| > budget)
  }

  lemma ExcusedLater(c: Result<()>, D: Database, budget: nat, start: nat, from: nat, now: nat, end: nat)
    requires start <= from <= now <= end && (c.Err? ==> Excused(c.error, D, budget, now > from))
    ensures c.Err? ==> Excused(c.error, D, budget, end > start)
  {
  }

  ghost predicate Environment(odb: seq<OriginalTx>, D: Database, twu: TwuMap) {
    SortedDb(D, twu) && Loaded(odb, D, twu) && FitsProjection(D)
  }

  /** The prefix and the items that may follow it. */
  ghost predicate Prefix(twu: TwuMap, prefix: seq<ItemId>, last: ItemId) {
    && Distinct(prefix) && prefix != [] && prefix[|prefix| - 1] == last && Elems(prefix) !! After(twu, last)
  }

  // ----- the ledger

  /** What is left of a after b is subtracted, stopping at zero. */
  function Monus(a: nat, b: nat): nat {
    if b <= a then a - b else 0
  }

  /** The bytes requested for the projection of X. */
  ghost function ProjectionBytes(D: Database, X: ItemSet): nat {
    24 * |Support(D, X)|
  }

  /** The search goes on from p to p + [x]: at the top for every kept item, below for the items both
      bounds let through. */
  ghost predicate Expands(D: Database, twu: TwuMap, min: int, p: seq<ItemId>, x: ItemId) {
    if p == [] then x in twu
    else
      var P, last := Elems(p), p[|p| - 1];
      && x in After(twu, last) && Supported(D, P + {x})
      && SubtreeUtility(D, twu, P, x) >= min && LocalUtility(D, twu, P, last, x) >= min
  }

  /** The search below p visits v. */
  ghost predicate Reached(D: Database, twu: TwuMap, min: int, p: seq<ItemId>, v: seq<ItemId>) {
    p <= v && forall k | |p| <= k < |v| :: Expands(D, twu, min, v[..k], v[k])
  }

  /** The bytes held by the projections of the prefixes of v that are longer than i. */
  ghost function Demand(D: Database, v: seq<ItemId>, i: nat): nat
    requires i <= |v|
    decreases |v|
  {
    if |v| == i then 0 else Demand(D, v[..|v| - 1], i) + ProjectionBytes(D, Elems(v))
  }

  /** Whatever prefix the search below p visits, the projections on the way to it fit the budget together. */
  ghost predicate AllFit(D: Database, twu: TwuMap, min: int, p: seq<ItemId>, used: nat, budget: nat) {
    forall v | Reached(D, twu, min, p, v) && |v| > |p| :: used + Demand(D, v, |p|) <= budget
  }

  /** The same for p itself and the search below it. */
  ghost predicate BranchFits(D: Database, twu: TwuMap, min: int, p: seq<ItemId>, used: nat, budget: nat) {
    var bytes := ProjectionBytes(D, Elems(p));
    used + bytes <= budget && AllFit(D, twu, min, p, used + bytes, budget)
  }

  lemma {:induction false} DemandFront(D: Database, v: seq<ItemId>, i: nat)
    requires i < |v|
    ensures Demand(D, v, i) == ProjectionBytes(D, Elems(v[..i + 1])) + Demand(D, v, i + 1)
    decreases |v|
  {
    hide ProjectionBytes;
    var n := |v| - 1;
    if i < n {
      DemandFront(D, v[..n], i);
      assert v[..n][..i + 1] == v[..i + 1];
    } else {
      assert v[..i + 1] == v;
    }
  }

  /** Everything below p fits exactly when every branch does. */
  lemma AllFitIff(D: Database, twu: TwuMap, min: int, p: seq<ItemId>, used: nat, budget: nat)
    ensures AllFit(D, twu, min, p, used, budget) <==>
            forall x | Expands(D, twu, min, p, x) :: BranchFits(D, twu, min, p + [x], used, budget)
  {
    hide Expands, BranchFits, Demand;
    if AllFit(D, twu, min, p, used, budget) {
      forall x | Expands(D, twu, min, p, x) ensures BranchFits(D, twu, min, p + [x], used, budget) {
        FitsChild(D, twu, min, p, x, used, budget);
      }
    }
    if forall x | Expands(D, twu, min, p, x) :: BranchFits(D, twu, min, p + [x], used, budget) {
      forall v | Reached(D, twu, min, p, v) && |v| > |p| ensures used + Demand(D, v, |p|) <= budget {
        var x, q := v[|p|], p + [v[|p|]];
        assert v[..|p|] == p && Expands(D, twu, min, p, x);
        assert v[..|p| + 1] == q;
        assert BranchFits(D, twu, min, q, used, budget);
        FitsVisit(D, twu, min, p, x, v, used, budget);
      }
    }
  }

  lemma FitsChild(D: Database, twu: TwuMap, min: int, p: seq<ItemId>, x: ItemId, used: nat, budget: nat)
    requires AllFit(D, twu, min, p, used, budget) && Expands(D, twu, min, p, x)
    ensures BranchFits(D, twu, min, p + [x], used, budget)
  {
    hide Expands, ProjectionBytes;
    var q := p + [x];
    assert q[..|p|] == p && q[..|q|] == q;
    assert Reached(D, twu, min, p, q);
    DemandFront(D, q, |p|);
    assert used + Demand(D, q, |p|) <= budget;
    forall v | Reached(D, twu, min, q, v) && |v| > |q|
      ensures used + ProjectionBytes(D, Elems(q)) + Demand(D, v, |q|) <= budget
    {
      assert v[..|q|] == q && v[..|p|] == p && v[|p|] == x;
      assert Reached(D, twu, min, p, v);
      DemandFront(D, v, |p|);
    }
  }

  lemma FitsVisit(D: Database, twu: TwuMap, min: int, p: seq<ItemId>, x: ItemId, v: seq<ItemId>, used: nat, budget: nat)
    requires Reached(D, twu, min, p, v) && |v| > |p| && v[|p|] == x && BranchFits(D, twu, min, p + [x], used, budget)
    ensures used + Demand(D, v, |p|) <= budget
  {
    hide Expands, ProjectionBytes;
    var q := p + [x];
    assert v[..|q|] == q;
    DemandFront(D, v, |p|);
    if |v| > |q| {
      assert Reached(D, twu, min, q, v);
    }
  }

  /** A list has one entry per supporting transaction. */
  lemma {:induction false} ULCounts(D: Database, X: ItemSet, R: ItemSet)
    ensures |UL(D, X, R)| == |Support(D, X)|
  {
    if D == [] {
      assert Support(D, X) == {};
    } else {
      var n := |D| - 1;
      ULCounts(D[..n], X, R);
      assert forall k | 0 <= k < n :: D[..n][k] == D[k];
      if X <= ItemsOf(D[n].items) {
        assert Support(D, X) == Support(D[..n], X) + {n};
      } else {
        assert Support(D, X) == Support(D[..n], X);
      }
    }
  }

  lemma EntrySize(proj: seq<ProjTx>)
    ensures |proj| * PROJ_ENTRY_SIZE == 24 * |proj|
  {
  }

  lemma ProjectedBytes(D: Database, twu: TwuMap, P: ItemSet, last: ItemId, proj: seq<ProjTx>)
    requires Projects(D, twu, P, last, proj)
    ensures |proj| * PROJ_ENTRY_SIZE == ProjectionBytes(D, P) && (proj == [] <==> !Supported(D, P))
  {
    ULCounts(D, P, After(twu, last));
    ULSums(D, P, After(twu, last));
  }

  /** The branches searched so far all fit. */
  ghost predicate DoneFit(D: Database, twu: TwuMap, min: int, p: seq<ItemId>, done: ItemSet, used: nat, budget: nat) {
    forall x | x in done && Expands(D, twu, min, p, x) :: BranchFits(D, twu, min, p + [x], used, budget)
  }

  lemma DoneNext(D: Database, twu: TwuMap, min: int, p: seq<ItemId>, done: ItemSet, x: ItemId, used: nat, budget: nat)
    ensures DoneFit(D, twu, min, p, {}, used, budget)
    ensures DoneFit(D, twu, min, p, done + {x}, used, budget) <==>
            DoneFit(D, twu, min, p, done, used, budget) && (Expands(D, twu, min, p, x) ==> BranchFits(D, twu, min, p + [x], used, budget))
  {
    hide Expands, BranchFits;
  }

  lemma DoneAll(D: Database, twu: TwuMap, min: int, p: seq<ItemId>, done: ItemSet, used: nat, budget: nat)
    requires forall x | Expands(D, twu, min, p, x) :: x in done
    ensures DoneFit(D, twu, min, p, done, used, budget) <==> AllFit(D, twu, min, p, used, budget)
  {
    hide Expands, BranchFits;
    AllFitIff(D, twu, min, p, used, budget);
  }

  /** The ledger of a piece of the search: `lost` bytes too many were given back, and if no work was
      lost, this is nothing exactly when the piece fits. */
  ghost predicate LedgerIs(before: nat, now: nat, lost: nat, fits: bool, clean: Result<()>) {
    && now == Monus(before, lost) && (lost == 0 || lost >= 24)
    && (fits ==> lost == 0)
    && (clean.Ok? && lost == 0 ==> fits)
  }

  lemma LedgerStart(before: nat, clean: Result<()>)
    ensures LedgerIs(before, before, 0, true, clean) && Monus(before, 0) == before
  {
  }

  /** One more branch. If nothing was lost before, it started from the same ledger. */
  lemma LedgerStep(before: nat, mid: nat, now: nat, lost: nat, more: nat, fits: bool, branchFits: bool,
                   clean: Result<()>, task: Result<()>)
    requires LedgerIs(before, mid, lost, fits, clean) && (fits ==> clean.Ok?)
    requires now == Monus(mid, more) && (more == 0 || more >= 24)
    requires mid == before ==> LedgerIs(mid, now, more, branchFits, task) && (branchFits ==> task.Ok?)
    ensures var c := if clean.Ok? then task else clean;
            LedgerIs(before, now, lost + more, fits && branchFits, c) && (fits && branchFits ==> c.Ok?)
  {
  }

  /** A branch whose projection was refused and could not be spilled either gives nothing back. */
  lemma LedgerUnspilled(D: Database, twu: TwuMap, min: int, p: seq<ItemId>, used: nat, budget: nat, e: Error)
    requires used + ProjectionBytes(D, Elems(p)) > budget
    ensures LedgerIs(used, used, 0, BranchFits(D, twu, min, p, used, budget), Err(e)) && !BranchFits(D, twu, min, p, used, budget)
  {
    hide ProjectionBytes;
  }

  /** Freeing the projection after the search below it: exact if it was granted; bytes that were never
      granted are lost if it was refused. */
  lemma LedgerFreed(D: Database, twu: TwuMap, min: int, p: seq<ItemId>, before: nat, budget: nat, granted: bool,
                    held: nat, below: nat,
                    now: nat, lost: nat, clean: Result<()>)
    requires var bytes := ProjectionBytes(D, Elems(p));
             && bytes >= 24 && (granted <==> before + bytes <= budget) && held == (if granted then before + bytes else before)
             && now == (if bytes <= below then below - bytes else 0)
    requires LedgerIs(held, below, lost, AllFit(D, twu, min, p, held, budget), clean)
    requires granted && AllFit(D, twu, min, p, held, budget) ==> clean.Ok?
    ensures var all := if granted then lost else lost + ProjectionBytes(D, Elems(p));
            LedgerIs(before, now, all, BranchFits(D, twu, min, p, before, budget), clean)
    ensures BranchFits(D, twu, min, p, before, budget) ==> clean.Ok?
  {
    hide ProjectionBytes, AllFit;
  }

  lemma SupportedBytes(D: Database, X: ItemSet)
    requires Supported(D, X)
    ensures ProjectionBytes(D, X) >= 24
  {
    var k :| 0 <= k < |D| && X <= ItemsOf(D[k].items);
    assert k in Support(D, X);
  }

  /** Nothing below an unsupported prefix is visited. */
  lemma NothingBelow(D: Database, twu: TwuMap, min: int, p: seq<ItemId>, last: ItemId, used: nat, budget: nat)
    requires Prefix(twu, p, last) && !Supported(D, Elems(p))
    ensures AllFit(D, twu, min, p, used, budget)
  {
    forall x ensures !Expands(D, twu, min, p, x) {
      if Supported(D, Elems(p) + {x}) { SupportedMonotone(D, Elems(p), Elems(p) + {x}); }
    }
    AllFitIff(D, twu, min, p, used, budget);
  }

  /** The items the search expands are those both maps let through. */
  lemma ExpandsIff(D: Database, twu: TwuMap, min: int, p: seq<ItemId>, last: ItemId, lu: map<ItemId, int>,
                   su: map<ItemId, int>, x: ItemId)
    requires Prefix(twu, p, last) && BoundsOf(D, twu, Elems(p), last, lu, su)
    ensures Expands(D, twu, min, p, x) <==> x in su && su[x] >= min && lu[x] >= min
  {
  }

  /** Writes the itemset if it qualifies, spills its projection if the guard refuses room for it, and
      searches below it. */
  method Descend(odb: seq<OriginalTx>, ghost D: Database, ghost twu: TwuMap, min: int, closedOnly: bool,
                 prefix: seq<ItemId>, ghost P: ItemSet,
                 x: ItemId, newProj: seq<ProjTx>, itemUtil: int, guard: MemoryGuard, pool: BufferPool, out: ResultWriter)
    returns (ghost clean: Result<()>, ghost found: seq<Hui>, ghost lost: nat)
    requires Environment(odb, D, twu) && pool.Valid() && pool.Idle()
    requires Prefix(twu, prefix, x) && Elems(prefix) == P + {x} && x !in P
    requires Projects(D, twu, P + {x}, x, newProj) && newProj != [] && itemUtil == Utility(D, P + {x})
    modifies guard, pool`frames, pool`used, pool`guards, pool.store, pool.eviction, out
    ensures pool.Valid() && pool.Idle() && Grows(old(pool.Contents()), pool.Contents())
    ensures pool.store.faults >= old(pool.store.faults)
    ensures clean.Err? ==> Excused(clean.error, D, pool.budget, pool.store.faults > old(pool.store.faults))
    ensures out.huis == old(out.huis) + found && out.Lost() >= old(out.Lost())
    ensures Reports(D, found, Branch(P, x, After(twu, x)) * Wanted(D, min, closedOnly),
                    clean.Ok? && out.Lost() == old(out.Lost()))
    ensures LedgerIs(old(guard.used), guard.used, lost, BranchFits(D, twu, min, prefix, old(guard.used), guard.budget), clean)
    ensures BranchFits(D, twu, min, prefix, old(guard.used), guard.budget) ==> clean.Ok?
    ensures clean.Ok? && old(guard.used) + 24 * |newProj| > guard.budget ==>
              Spilled(old(pool.Contents()), pool.Contents(), newProj)
    decreases After(twu, x), 3
  {
    hide *;
    lost := 0;
    EnvironmentFacts(odb, D, twu);
    found := WriteRoot(odb, D, twu, min, closedOnly, prefix, P, x, newProj, itemUtil, out);
    PrefixFacts(twu, prefix, x);
    ProjectionFits(D, twu, P + {x}, x, newProj);
    var bytes := |newProj| * PROJ_ENTRY_SIZE;
    EntrySize(newProj);
    ProjectedBytes(D, twu, P + {x}, x, newProj);
    var granted := guard.TryAlloc(bytes);
    ghost var held := guard.used;
    var next, spilled := Spill(D, newProj, granted, pool);
    ghost var mid, faultsMid := pool.Contents(), pool.store.faults;
    if spilled.Err? {
      LedgerUnspilled(D, twu, min, prefix, guard.used, guard.budget, spilled.error);
      assert found + [] == found;
      ReportsNothing(D, Family(P + {x}, After(twu, x)) * Wanted(D, min, closedOnly));
      ReportsBranch(D, Wanted(D, min, closedOnly), P, x, After(twu, x), found, out.Lost() == old(out.Lost()), [], false);
      return spilled, found, 0;
    }
    ghost var root, deeper, missed := found, [], out.Lost();
    clean, deeper, lost := Mine(odb, D, twu, min, closedOnly, prefix, x, newProj, next, guard, pool, out);
    GrowsTwice(old(pool.Contents()), mid, pool.Contents());
    if !granted { SpilledGrows(old(pool.Contents()), mid, pool.Contents(), newProj); }
    ExcusedLater(clean, D, pool.budget, old(pool.store.faults), faultsMid, pool.store.faults, pool.store.faults);
    found := found + deeper;
    // Also on the spill path, where nothing was granted.
    ghost var below := guard.used;
    guard.Free(bytes);
    SupportedBytes(D, P + {x});
    LedgerFreed(D, twu, min, prefix, old(guard.used), guard.budget, granted, held, below, guard.used, lost, clean);
    lost := if granted then lost else lost + bytes;
    ReportsBranch(D, Wanted(D, min, closedOnly), P, x, After(twu, x), root, missed == old(out.Lost()), deeper,
                  clean.Ok? && out.Lost() == missed);
  }

  /** Writes the itemset of a projection, if it is of high utility and, where asked for, closed. */
  method WriteRoot(odb: seq<OriginalTx>, ghost D: Database, ghost twu: TwuMap, min: int, closedOnly: bool,
                   prefix: seq<ItemId>, ghost P: ItemSet,
                   x: ItemId, newProj: seq<ProjTx>, itemUtil: int, out: ResultWriter) returns (ghost found: seq<Hui>)
    requires Environment(odb, D, twu) && Prefix(twu, prefix, x) && Elems(prefix) == P + {x}
    requires Projects(D, twu, P + {x}, x, newProj) && newProj != [] && itemUtil == Utility(D, P + {x})
    modifies out
    ensures out.huis == old(out.huis) + found && out.Lost() >= old(out.Lost())
    ensures Reports(D, found, iset{P + {x}} * Wanted(D, min, closedOnly), out.Lost() == old(out.Lost()))
  {
    hide *;
    found := [];
    EnvironmentFacts(odb, D, twu);
    if itemUtil >= min {
      var closed := true;
      if closedOnly {
        closed := IsClosed(odb, D, twu, newProj, prefix, x);
      }
      if closed {
        var w := out.WriteHui(prefix, itemUtil);
        if w.Ok? { found := [Hui(prefix, itemUtil)]; }
      }
    }
    if out.Lost() == old(out.Lost()) {
      RootEmitted(D, twu, min, closedOnly, prefix, P, x, newProj, itemUtil, found);
    } else {
      ReportsNothing(D, iset{P + {x}} * Wanted(D, min, closedOnly));
    }
  }

  /** In memory if the guard granted the room, as a page otherwise. */
  method Spill(ghost D: Database, proj: seq<ProjTx>, granted: bool, pool: BufferPool) returns (next: EfimProj, r: Result<()>)
    requires pool.Valid() && pool.Idle() && ProjFits(proj) && |proj| <= |D| && 24 * |D| < TWO_32
    modifies pool`frames, pool`used, pool.store, pool.eviction
    ensures pool.Valid() && pool.Idle() && Grows(old(pool.Contents()), pool.Contents())
    ensures granted ==> r.Ok? && next.InMemory? && pool.frames == old(pool.frames)
    ensures !granted && r.Ok? ==> next.OnDisk? && Spilled(old(pool.Contents()), pool.Contents(), proj)
    ensures r.Ok? ==> Holds(next, pool.Contents(), proj)
    ensures pool.store.faults >= old(pool.store.faults)
    ensures r.Err? ==> Excused(r.error, D, pool.budget, pool.store.faults > old(pool.store.faults))
  {
    hide Consistent, Overlay, ResidentBytes, PinnedBytes, Data, PagesOf, ChunkStore.Pages, ChunkStore.Valid,
         ChunkStore.Stored,
         LruPolicy.Valid, Codec.Valid, ProjFits, ProjBytes;
    next, r := InMemory(proj), Ok(());
    if !granted {
      var bytes := EncodeProj(proj);
      pool.IdlePinsNothing();
      var page := pool.InsertNew(bytes);
      if page.Err? { return next, Err(page.error); }
      next := OnDisk(page.value, |proj|);
    }
  }

  /** A projection as entries again. */
  method Resolve(ghost D: Database, ghost entries: seq<ProjTx>, proj: EfimProj, pool: BufferPool) returns (r: Result<seq<ProjTx>>)
    requires pool.Valid() && pool.Idle() && Holds(proj, pool.Contents(), entries) && |entries| <= |D|
    modifies pool`frames, pool`used, pool`guards, pool.store, pool.eviction
    ensures pool.Valid() && pool.Idle() && pool.Contents() == old(pool.Contents())
    ensures r.Ok? ==> r.value == entries
    ensures proj.InMemory? ==> r.Ok?
    ensures pool.store.faults >= old(pool.store.faults)
    ensures r.Err? ==> Excused(r.error, D, pool.budget, pool.store.faults > old(pool.store.faults))
  {
    hide Consistent, Overlay, ResidentBytes, PinnedBytes, Data, PagesOf, ChunkStore.Pages, ChunkStore.Valid,
         ChunkStore.Stored,
         LruPolicy.Valid, Codec.Valid, ProjFits, ProjBytes;
    match proj
    case InMemory(es) =>
      r := Ok(es);
    case OnDisk(page, count) =>
      var bytes := pool.Fetch(page);
      if bytes.Err? { return Err(bytes.error); }
      var es := DecodeProj(entries, bytes.value, count);
      r := Ok(es);
  }

  /** The search below a prefix: every wanted itemset that extends it by later items, once, whatever
      order the extensions are taken in. Lost branches are skipped silently, as `clean` records. */
  method Mine(odb: seq<OriginalTx>, ghost D: Database, ghost twu: TwuMap, min: int, closedOnly: bool,
              prefix: seq<ItemId>, ghost last: ItemId,
              ghost entries: seq<ProjTx>, proj: EfimProj, guard: MemoryGuard, pool: BufferPool, out: ResultWriter)
    returns (ghost clean: Result<()>, ghost found: seq<Hui>, ghost lost: nat)
    requires Environment(odb, D, twu) && pool.Valid() && pool.Idle() && Prefix(twu, prefix, last)
    requires Projects(D, twu, Elems(prefix), last, entries) && Holds(proj, pool.Contents(), entries)
    modifies guard, pool`frames, pool`used, pool`guards, pool.store, pool.eviction, out
    ensures pool.Valid() && pool.Idle() && Grows(old(pool.Contents()), pool.Contents())
    ensures pool.store.faults >= old(pool.store.faults)
    ensures clean.Err? ==> Excused(clean.error, D, pool.budget, pool.store.faults > old(pool.store.faults))
    ensures out.huis == old(out.huis) + found && out.Lost() >= old(out.Lost())
    ensures Reports(D, found, Family(Elems(prefix), After(twu, last)) * Wanted(D, min, closedOnly),
                    clean.Ok? && out.Lost() == old(out.Lost()))
    ensures LedgerIs(old(guard.used), guard.used, lost, AllFit(D, twu, min, prefix, old(guard.used), guard.budget), clean)
    ensures proj.InMemory? && AllFit(D, twu, min, prefix, old(guard.used), guard.budget) ==> clean.Ok?
    decreases After(twu, last), 2
  {
    hide *;
    clean, found, lost := Ok(()), [], 0;
    ghost var start := guard.used;
    ProjectedBytes(D, twu, Elems(prefix), last, entries);
    ghost var P, W := Elems(prefix), Wanted(D, min, closedOnly);
    EnvironmentFacts(odb, D, twu);
    PrefixFacts(twu, prefix, last);
    ProjectionFits(D, twu, P, last, entries);
    var slice := Resolve(D, entries, proj, pool);
    GrowsSelf(pool.Contents());
    ghost var faultsMid := pool.store.faults;
    if slice.Err? {
      LedgerFailed(start, AllFit(D, twu, min, prefix, start, guard.budget), slice.error);
      ReportsNothing(D, Family(P, After(twu, last)) * W);
      return Err(slice.error), [], 0;
    }
    if slice.value == [] {
      LedgerStart(start, clean);
      EmptyProjection(D, twu, min, closedOnly, P, last);
      NothingBelow(D, twu, min, prefix, last, guard.used, guard.budget);
      return;
    }
    var lu, su := ComputeBounds(odb, D, twu, P, last, slice.value);
    clean, found, lost := MineItems(odb, D, twu, min, closedOnly, prefix, last, slice.value, lu, su, guard, pool, out);
    ExcusedLater(clean, D, pool.budget, old(pool.store.faults), faultsMid, pool.store.faults, pool.store.faults);
  }

  lemma LedgerFailed(used: nat, fits: bool, e: Error)
    ensures LedgerIs(used, used, 0, fits, Err(e))
  {
  }

  /** What both maps of a search node say. */
  ghost predicate BoundsOf(D: Database, twu: TwuMap, P: ItemSet, last: ItemId, lu: map<ItemId, int>, su: map<ItemId, int>) {
    && lu.Keys == su.Keys
    && (forall x :: x in su <==> x in After(twu, last) && Supported(D, P + {x}))
    && (forall x | x in su :: su[x] == SubtreeUtility(D, twu, P, x) && lu[x] == LocalUtility(D, twu, P, last, x))
  }

  lemma BoundsAt(D: Database, twu: TwuMap, P: ItemSet, last: ItemId, lu: map<ItemId, int>, su: map<ItemId, int>, x: ItemId)
    requires BoundsOf(D, twu, P, last, lu, su)
    ensures x in su <==> x in After(twu, last) && Supported(D, P + {x})
    ensures x in su ==> x in lu && su[x] == SubtreeUtility(D, twu, P, x) && lu[x] == LocalUtility(D, twu, P, last, x)
  {
  }

  /** The loop over the items su lets through, in any order. */
  method MineItems(odb: seq<OriginalTx>, ghost D: Database, ghost twu: TwuMap, min: int, closedOnly: bool,
                   prefix: seq<ItemId>, ghost last: ItemId,
                   entries: seq<ProjTx>, lu: map<ItemId, int>, su: map<ItemId, int>, guard: MemoryGuard, pool: BufferPool, out: ResultWriter)
    returns (ghost clean: Result<()>, ghost found: seq<Hui>, ghost lost: nat)
    requires Environment(odb, D, twu) && pool.Valid() && pool.Idle() && Prefix(twu, prefix, last)
    requires Projects(D, twu, Elems(prefix), last, entries) && BoundsOf(D, twu, Elems(prefix), last, lu, su)
    modifies guard, pool`frames, pool`used, pool`guards, pool.store, pool.eviction, out
    ensures pool.Valid() && pool.Idle() && Grows(old(pool.Contents()), pool.Contents())
    ensures pool.store.faults >= old(pool.store.faults)
    ensures clean.Err? ==> Excused(clean.error, D, pool.budget, pool.store.faults > old(pool.store.faults))
    ensures out.huis == old(out.huis) + found && out.Lost() >= old(out.Lost())
    ensures Reports(D, found, Family(Elems(prefix), After(twu, last)) * Wanted(D, min, closedOnly),
                    clean.Ok? && out.Lost() == old(out.Lost()))
    ensures LedgerIs(old(guard.used), guard.used, lost, AllFit(D, twu, min, prefix, old(guard.used), guard.budget), clean)
    ensures AllFit(D, twu, min, prefix, old(guard.used), guard.budget) ==> clean.Ok?
    decreases After(twu, last), 1
  {
    hide *;
    clean, found, lost := Ok(()), [], 0;
    ghost var P, W, start := Elems(prefix), Wanted(D, min, closedOnly), guard.used;
    ghost var faults := pool.store.faults;
    var valid := set x | x in su && su[x] >= min;
    var rest := valid;
    EnvironmentFacts(odb, D, twu);
    PrefixFacts(twu, prefix, last);
    forall x | x in valid ensures x in After(twu, last) { BoundsAt(D, twu, P, last, lu, su, x); }
    GrowsSelf(pool.Contents());
    MineStart(D, twu, P, W);
    LedgerStart(start, clean);
    DoneNext(D, twu, min, prefix, {}, last, start, guard.budget);
    assert valid - rest == {};
    while rest != {}
      invariant rest <= valid
      invariant pool.Valid() && pool.Idle() && Grows(old(pool.Contents()), pool.Contents())
      invariant pool.store.faults >= faults && (clean.Err? ==> Excused(clean.error, D, pool.budget, pool.store.faults > faults))
      invariant out.huis == old(out.huis) + found && out.Lost() >= old(out.Lost())
      invariant Reports(D, found, Branches(twu, P, valid - rest) * W, clean.Ok? && out.Lost() == old(out.Lost()))
      invariant LedgerIs(start, guard.used, lost, DoneFit(D, twu, min, prefix, valid - rest, start, guard.budget), clean)
      invariant DoneFit(D, twu, min, prefix, valid - rest, start, guard.budget) ==> clean.Ok?
      decreases rest
    {
      var x :| x in rest;
      ghost var before, mid, faultsMid, missed := pool.Contents(), guard.used, pool.store.faults, out.Lost();
      BoundsAt(D, twu, P, last, lu, su, x);
      ExtendedPrefix(twu, prefix, last, x);
      ghost var task, more, leak := MineItem(odb, D, twu, min, closedOnly, prefix, last, entries, lu, su, x, guard, pool, out);
      GrowsTwice(old(pool.Contents()), before, pool.Contents());
      ExcusedLater(clean, D, pool.budget, faults, faults, faultsMid, pool.store.faults);
      ExcusedLater(task, D, pool.budget, faults, faultsMid, pool.store.faults, pool.store.faults);
      ItemDone(D, twu, min, prefix, valid - rest, x, start, guard.budget, mid, guard.used, lost, leak, clean, task);
      lost := lost + leak;
      MineStep(D, twu, P, last, valid - rest, x, W, found, clean.Ok? && missed == old(out.Lost()),
               more, task.Ok? && out.Lost() == missed);
      found := found + more;
      if clean.Ok? { clean := task; }
      assert valid - (rest - {x}) == (valid - rest) + {x};
      rest := rest - {x};
    }
    assert valid - rest == valid;
    ItemsCover(D, twu, min, closedOnly, prefix, last, lu, su, valid, start, guard.budget);
  }

  /** The ledger after one more item. */
  lemma ItemDone(D: Database, twu: TwuMap, min: int, p: seq<ItemId>, done: ItemSet, x: ItemId, start: nat, budget: nat,
                 mid: nat, now: nat,
                 lost: nat, leak: nat, clean: Result<()>, task: Result<()>)
    requires LedgerIs(start, mid, lost, DoneFit(D, twu, min, p, done, start, budget), clean)
    requires DoneFit(D, twu, min, p, done, start, budget) ==> clean.Ok?
    requires LedgerIs(mid, now, leak, Expands(D, twu, min, p, x) ==> BranchFits(D, twu, min, p + [x], mid, budget), task)
    requires (Expands(D, twu, min, p, x) ==> BranchFits(D, twu, min, p + [x], mid, budget)) ==> task.Ok?
    ensures var c := if clean.Ok? then task else clean;
            && LedgerIs(start, now, lost + leak, DoneFit(D, twu, min, p, done + {x}, start, budget), c)
            && (DoneFit(D, twu, min, p, done + {x}, start, budget) ==> c.Ok?)
  {
    hide Expands, BranchFits, DoneFit;
    DoneNext(D, twu, min, p, done, x, start, budget);
    LedgerStep(start, mid, now, lost, leak, DoneFit(D, twu, min, p, done, start, budget),
               Expands(D, twu, min, p, x) ==> BranchFits(D, twu, min, p + [x], start, budget), clean, task);
  }

  lemma ItemsCover(D: Database, twu: TwuMap, min: int, closedOnly: bool, prefix: seq<ItemId>, last: ItemId, lu: map<ItemId, int>,
                   su: map<ItemId, int>, valid: ItemSet, used: nat, budget: nat)
    requires ValidDatabase(D) && Prefix(twu, prefix, last) && BoundsOf(D, twu, Elems(prefix), last, lu, su)
    requires valid == set x | x in su && su[x] >= min
    ensures Branches(twu, Elems(prefix), valid) * Wanted(D, min, closedOnly) == Family(Elems(prefix), After(twu, last)) * Wanted(D, min, closedOnly)
    ensures DoneFit(D, twu, min, prefix, valid, used, budget) <==> AllFit(D, twu, min, prefix, used, budget)
  {
    hide Branches, Family, Wanted, SubtreeUtility, LocalUtility, After, Supported, DoneFit, AllFit, Expands,
         ValidDatabase;
    BranchesCover(D, twu, min, closedOnly, Elems(prefix), last, su, valid);
    forall x | Expands(D, twu, min, prefix, x) ensures x in valid { ExpandsIff(D, twu, min, prefix, last, lu, su, x); }
    DoneAll(D, twu, min, prefix, valid, used, budget);
  }

  /** One extension of a search node. */
  method MineItem(odb: seq<OriginalTx>, ghost D: Database, ghost twu: TwuMap, min: int, closedOnly: bool,
                  prefix: seq<ItemId>, ghost last: ItemId,
                  entries: seq<ProjTx>, lu: map<ItemId, int>, su: map<ItemId, int>, x: ItemId, guard: MemoryGuard, pool: BufferPool, out: ResultWriter)
    returns (ghost clean: Result<()>, ghost found: seq<Hui>, ghost lost: nat)
    requires Environment(odb, D, twu) && pool.Valid() && pool.Idle() && Prefix(twu, prefix, last)
    requires Projects(D, twu, Elems(prefix), last, entries)
    requires BoundsOf(D, twu, Elems(prefix), last, lu, su) && x in su && su[x] >= min
    modifies guard, pool`frames, pool`used, pool`guards, pool.store, pool.eviction, out
    ensures pool.Valid() && pool.Idle() && Grows(old(pool.Contents()), pool.Contents())
    ensures pool.store.faults >= old(pool.store.faults)
    ensures clean.Err? ==> Excused(clean.error, D, pool.budget, pool.store.faults > old(pool.store.faults))
    ensures out.huis == old(out.huis) + found && out.Lost() >= old(out.Lost())
    ensures Reports(D, found, Branch(Elems(prefix), x, After(twu, x)) * Wanted(D, min, closedOnly),
                    clean.Ok? && out.Lost() == old(out.Lost()))
    ensures LedgerIs(old(guard.used), guard.used, lost,
                     Expands(D, twu, min, prefix, x) ==> BranchFits(D, twu, min, prefix + [x], old(guard.used), guard.budget), clean)
    ensures (Expands(D, twu, min, prefix, x) ==> BranchFits(D, twu, min, prefix + [x], old(guard.used), guard.budget)) ==>
              clean.Ok?
    decreases After(twu, last), 0
  {
    hide *;
    clean, found, lost := Ok(()), [], 0;
    ghost var P := Elems(prefix);
    GrowsSelf(pool.Contents());
    EnvironmentFacts(odb, D, twu);
    PrefixFacts(twu, prefix, last);
    BoundsAt(D, twu, P, last, lu, su, x);
    ExtendedPrefix(twu, prefix, last, x);
    ExpandsIff(D, twu, min, prefix, last, lu, su, x);
    if lu[x] < min {
      LedgerStart(guard.used, clean);
      LocalPrunes(D, twu, min, closedOnly, P, last, x);
      return;
    }
    var newProj, itemUtil := Project(odb, D, twu, P, last, entries, x);
    ProjectedBytes(D, twu, P + {x}, x, newProj);
    if newProj == [] {
      // Never so: x was counted because some projected transaction holds it.
      assert false;
    } else {
      clean, found, lost := Descend(odb, D, twu, min, closedOnly, prefix + [x], P, x, newProj, itemUtil, guard, pool, out);
    }
  }

  lemma GrowsSelf(m: Flat)
    ensures Grows(m, m)
  {
  }

  lemma GrowsTwice(a: Flat, b: Flat, c: Flat)
    requires Grows(a, b) && Grows(b, c)
    ensures Grows(a, c)
  {
  }

  lemma EnvironmentFacts(odb: seq<OriginalTx>, D: Database, twu: TwuMap)
    requires Environment(odb, D, twu)
    ensures SortedDb(D, twu) && Loaded(odb, D, twu) && FitsProjection(D) && ValidDatabase(D) && 24 * |D| < TWO_32
  {
  }

  lemma PrefixFacts(twu: TwuMap, prefix: seq<ItemId>, last: ItemId)
    requires Prefix(twu, prefix, last)
    ensures Elems(prefix) !! After(twu, last) && Distinct(prefix)
  {
  }

  /** Adding a later item gives a prefix again, with strictly fewer items left to add. */
  lemma ExtendedPrefix(twu: TwuMap, prefix: seq<ItemId>, last: ItemId, x: ItemId)
    requires Prefix(twu, prefix, last) && x in After(twu, last)
    ensures Prefix(twu, prefix + [x], x) && Elems(prefix + [x]) == Elems(prefix) + {x} && x !in Elems(prefix)
    ensures After(twu, x) < After(twu, last)
  {
    assert Elems(prefix + [x]) == Elems(prefix) + {x};
    assert x !in After(twu, x);
    forall y | y in After(twu, x) ensures y in After(twu, last) {
      assert Less(twu, last, x) && Less(twu, x, y);
    }
  }

  lemma RootEmitted(D: Database, twu: TwuMap, min: int, closedOnly: bool, prefix: seq<ItemId>, P: ItemSet, x: ItemId,
                    proj: seq<ProjTx>, itemUtil: int, found: seq<Hui>)
    requires Prefix(twu, prefix, x) && Elems(prefix) == P + {x} && Projects(D, twu, P + {x}, x, proj) && proj != []
    requires itemUtil == Utility(D, P + {x})
    requires found == if itemUtil >= min && (closedOnly ==> Closed(D, P + {x})) then [Hui(prefix, itemUtil)] else []
    ensures Reports(D, found, iset{P + {x}} * Wanted(D, min, closedOnly), true)
  {
    var X, W := P + {x}, Wanted(D, min, closedOnly);
    ULSums(D, X, After(twu, x));
    assert x in X;
    assert IsHui(D, min, X) <==> itemUtil >= min;
    if found != [] {
      EmitsSingle(D, found[0]);
      assert iset{X} * W == iset{X};
      EmitsReports(D, found, iset{X});
    } else {
      ReportsNothing(D, iset{X} * W);
      assert iset{X} * W == iset{};
    }
  }

  /** A prefix no transaction contains has no wanted extension. */
  lemma EmptyProjection(D: Database, twu: TwuMap, min: int, closedOnly: bool, P: ItemSet, last: ItemId)
    requires Projects(D, twu, P, last, [])
    ensures Reports(D, [], Family(P, After(twu, last)) * Wanted(D, min, closedOnly), true)
  {
    ULSums(D, P, After(twu, last));
    forall X | X in Family(P, After(twu, last)) ensures X !in Wanted(D, min, closedOnly) {
      if Supported(D, X) { SupportedMonotone(D, P, X); }
    }
    ReportsNothing(D, Family(P, After(twu, last)) * Wanted(D, min, closedOnly));
    assert Family(P, After(twu, last)) * Wanted(D, min, closedOnly) == iset{};
  }

  /** The local-utility cut is safe. */
  lemma LocalPrunes(D: Database, twu: TwuMap, min: int, closedOnly: bool, P: ItemSet, last: ItemId, x: ItemId)
    requires ValidDatabase(D) && x in After(twu, last) && x !in P && LocalUtility(D, twu, P, last, x) < min
    ensures Reports(D, [], Branch(P, x, After(twu, x)) * Wanted(D, min, closedOnly), true)
  {
    SubtreeBelowLocal(D, twu, P, last, x);
    forall X | X in Branch(P, x, After(twu, x)) ensures X !in Wanted(D, min, closedOnly) {
      SubtreeBounds(D, twu, P, x, X);
    }
    ReportsNothing(D, Branch(P, x, After(twu, x)) * Wanted(D, min, closedOnly));
    assert Branch(P, x, After(twu, x)) * Wanted(D, min, closedOnly) == iset{};
  }

  lemma MineStart(D: Database, twu: TwuMap, P: ItemSet, W: iset<ItemSet>)
    ensures Reports(D, [], Branches(twu, P, {}) * W, true)
  {
    ReportsNothing(D, Branches(twu, P, {}) * W);
    assert Branches(twu, P, {}) * W == iset{};
  }

  /** Branches of different extensions share no itemset. */
  lemma MineStep(D: Database, twu: TwuMap, P: ItemSet, last: ItemId, done: ItemSet, x: ItemId, W: iset<ItemSet>,
                 found: seq<Hui>, p: bool, more: seq<Hui>, q: bool)
    requires x !in done && x !in P && P !! done
    requires Reports(D, found, Branches(twu, P, done) * W, p)
    requires Reports(D, more, Branch(P, x, After(twu, x)) * W, q)
    ensures Reports(D, found + more, Branches(twu, P, done + {x}) * W, p && q)
  {
    hide Reports, Less;
    var F, G := Branches(twu, P, done), Branch(P, x, After(twu, x));
    forall X | X in F ensures X !in G {
      var y :| y in done && X in Branch(P, y, After(twu, y));
      OneBranch(twu, P, x, y, X);
    }
    ReportsConcat(D, found, F * W, p, more, G * W, q);
    forall X ensures InSomeBranch(twu, P, done + {x}, X) <==> InSomeBranch(twu, P, done, X) || X in G {
      if InSomeBranch(twu, P, done, X) {
        var y :| y in done && X in Branch(P, y, After(twu, y));
        assert y in done + {x};
      }
      if X in G { assert x in done + {x}; }
    }
    assert F * W + G * W == Branches(twu, P, done + {x}) * W;
  }

  lemma OneBranch(twu: TwuMap, P: ItemSet, x: ItemId, y: ItemId, X: ItemSet)
    requires x != y && x !in P && y !in P && X in Branch(P, y, After(twu, y))
    ensures X !in Branch(P, x, After(twu, x))
  {
    assert y in P + {y} && y in X;
    if Less(twu, x, y) {
      assert x !in P + {y} + After(twu, y);
      assert x in P + {x};
    } else {
      assert y !in P + {x} + After(twu, x);
    }
  }

  lemma {:induction false} LeastItem(twu: TwuMap, S: ItemSet) returns (x: ItemId)
    requires S != {}
    ensures x in S && forall y | y in S && y != x :: Less(twu, x, y)
    decreases S
  {
    var s :| s in S;
    x := s;
    assert forall y | y in S && y != s :: y in S - {s};
    if S - {s} != {} {
      var z := LeastItem(twu, S - {s});
      x := if Less(twu, z, s) then z else s;
      forall y | y in S && y != x ensures Less(twu, x, y) {
        if y != s && y != z { assert y in S - {s}; }
      }
    }
  }

  /** Every wanted extension lies in the branch of its first item, whose su reaches the threshold. */
  lemma BranchesCover(D: Database, twu: TwuMap, min: int, closedOnly: bool, P: ItemSet, last: ItemId, su: map<ItemId,
                      int>, valid: ItemSet)
    requires ValidDatabase(D) && P !! After(twu, last)
    requires forall x :: x in su <==> x in After(twu, last) && Supported(D, P + {x})
    requires forall x | x in su :: su[x] == SubtreeUtility(D, twu, P, x)
    requires valid == set x | x in su && su[x] >= min
    ensures Branches(twu, P, valid) * Wanted(D, min, closedOnly) == Family(P, After(twu, last)) * Wanted(D, min, closedOnly)
  {
    hide Less, SubtreeUtility, IsHui, Closed;
    var W := Wanted(D, min, closedOnly);
    forall X | X in Family(P, After(twu, last)) && X in W ensures X in Branches(twu, P, valid) {
      assert X <= P ==> X == P;
      assert X - P != {} by { var y :| y in X && y !in P; assert y in X - P; }
      var x := LeastItem(twu, X - P);
      InFirstBranch(twu, P, last, x, X);
      HuiSupported(D, min, P + {x}, X);
      SubtreeBounds(D, twu, P, x, X);
    }
    forall X | X in Branches(twu, P, valid) ensures X in Family(P, After(twu, last)) {
      var x :| x in valid && X in Branch(P, x, After(twu, x));
      BranchInFamily(twu, P, last, x, X);
    }
  }

  lemma HuiSupported(D: Database, min: int, Q: ItemSet, X: ItemSet)
    requires IsHui(D, min, X) && Q <= X
    ensures Supported(D, Q) && Utility(D, X) >= min
  {
    SupportedMonotone(D, Q, X);
  }

  lemma InFirstBranch(twu: TwuMap, P: ItemSet, last: ItemId, x: ItemId, X: ItemSet)
    requires X in Family(P, After(twu, last)) && x in X - P && forall y | y in X - P && y != x :: Less(twu, x, y)
    ensures X in Branch(P, x, After(twu, x)) && x in After(twu, last)
  {
    forall y | y in X ensures y in P + {x} + After(twu, x) {
      if y !in P && y != x { assert y in X - P; }
    }
  }

  lemma BranchInFamily(twu: TwuMap, P: ItemSet, last: ItemId, x: ItemId, X: ItemSet)
    requires x in After(twu, last) && x !in P && X in Branch(P, x, After(twu, x))
    ensures X in Family(P, After(twu, last))
  {
    forall y | y in After(twu, x) ensures y in After(twu, last) {
      assert Less(twu, last, x) && Less(twu, x, y);
    }
    assert x in P + {x} && x in X;
  }

  // ----- the run

  /** In TWU order, the items after an item are what it can be extended by. */
  lemma RemainingAt(twu: TwuMap, es: seq<ItemEntry>, i: nat)
    requires SortedEntries(twu, es) && ItemsOf(es) <= twu.Keys && i < |es|
    ensures UtilityIn(es, After(twu, es[i].item)) == TotalOf(es[i + 1..])
  {
    SortedSuffix(twu, es, i);
    SplitUtility(es, i + 1, After(twu, es[i].item));
  }

  /** The columns of one filtered transaction; what remains is summed from the back. */
  method MakeColumns(ghost twu: TwuMap, es: seq<ItemEntry>) returns (o: OriginalTx)
    requires SortedEntries(twu, es) && ItemsOf(es) <= twu.Keys
    ensures ColumnsOf(o, es, twu)
  {
    var items := ItemIds(es);
    var utilities := seq(|es|, k requires 0 <= k < |es| => es[k].utility);
    var remaining := seq(|es|, _ => 0);
    var ru, i := 0, |es|;
    assert es[|es|..] == [];
    hide SortedEntries, ItemsOf, UtilityIn, TotalOf, After;
    while i > 0
      invariant 0 <= i <= |es| && |remaining| == |es|
      invariant ru == TotalOf(es[i..])
      invariant forall k | i <= k < |es| :: remaining[k] == UtilityIn(es, After(twu, es[k].item))
    {
      i := i - 1;
      RemainingAt(twu, es, i);
      TotalCons(es, i);
      remaining := remaining[i := ru];
      ru := ru + utilities[i];
    }
    o := OriginalTx(items, utilities, remaining);
  }

  /** Pass 2: the filtered database in memory. The second sort by TWU alone leaves the order as it is. */
  method LoadDatabase(db: Database, twu: TwuMap) returns (odb: seq<OriginalTx>)
    requires ValidDatabase(db)
    ensures Loaded(odb, FilterDb(db, twu), twu)
  {
    odb := [];
    for n := 0 to |db|
      invariant Loaded(odb, FilterDb(db[..n], twu), twu)
    {
      hide FilterDb, ColumnsOf, ValidDatabase, Filters;
      FilterDbStep(db, twu, n);
      var f := Apply(twu, db[n]);
      if f.Some? {
        ghost var rest := FilterDb(db[..n], twu);
        FilteredTransactionValid(twu, db[n], f.value, |rest|);
        var o := MakeColumns(twu, f.value.items);
        odb := odb + [o];
      }
    }
    assert db[..|db|] == db;
  }

  /** The projection of a single item. */
  method InitialProject(odb: seq<OriginalTx>, ghost D: Database, ghost twu: TwuMap, x: ItemId)
    returns (proj: seq<ProjTx>, itemUtil: int)
    requires Environment(odb, D, twu)
    ensures Projects(D, twu, {x}, x, proj) && itemUtil == Utility(D, {x})
  {
    hide *;
    proj, itemUtil := [], 0;
    ghost var es, Rx := [], After(twu, x);
    EnvironmentFacts(odb, D, twu);
    ProjectStart(D, x, {}, {x}, {}, Rx);
    SameLength(odb, D, twu);
    for a := 0 to |odb|
      invariant es == UL(D[..a], {x}, Rx)
      invariant Matches(D, x, proj, es) && itemUtil == SumI(es)
    {
      LoadedAt(odb, D, twu, a);
      ULStep(D, a, {x}, Rx);
      var tx := odb[a];
      var pos := PositionFrom(tx.items, 0, x);
      InitialEntry(D, twu, odb, a, x, pos);
      if pos.Some? {
        var pu := tx.utilities[pos.value];
        var p := ProjTx(a, (pos.value + 1) % 0x1_0000, pu, pu + tx.remainingUtilities[pos.value]);
        SumsSnoc(es, Entry(D[a], {x}, Rx));
        MatchesSnoc(D, x, proj, es, p, Entry(D[a], {x}, Rx));
        itemUtil := itemUtil + pu;
        proj := proj + [p];
        es := es + [Entry(D[a], {x}, Rx)];
      }
    }
    assert D[..|D|] == D;
    ULSums(D, {x}, Rx);
    ProjectsFrom(D, twu, {x}, x, proj);
  }

  lemma SameLength(odb: seq<OriginalTx>, D: Database, twu: TwuMap)
    requires Loaded(odb, D, twu)
    ensures |odb| == |D|
  {
  }

  lemma InitialEntry(D: Database, twu: TwuMap, odb: seq<OriginalTx>, a: nat, x: ItemId, pos: Option<nat>)
    requires Environment(odb, D, twu) && a < |D|
    requires pos.None? ==> x !in odb[a].items[0..]
    requires pos.Some? ==> pos.value < |odb[a].items| && odb[a].items[pos.value] == x
    ensures pos.Some? <==> {x} <= ItemsOf(D[a].items)
    ensures pos.Some? ==>
              var o := odb[a];
              && pos.value < |o.utilities| == |o.remainingUtilities|
              && var pu := o.utilities[pos.value];
                 EntryMatches(D, x, ProjTx(a, (pos.value + 1) % 0x1_0000, pu, pu + o.remainingUtilities[pos.value]), Entry(D[a], {x}, After(twu, x)))
  {
    hide Environment, UtilityIn;
    EnvironmentAt(odb, D, twu, a);
    var es, o := D[a].items, odb[a];
    ItemIdsElems(es);
    assert o.items == ItemIds(es) && o.items[0..] == o.items;
    assert {x} <= ItemsOf(es) <==> x in Elems(o.items);
    if pos.Some? {
      assert x in o.items;
      UtilityInSingle(es, pos.value);
    }
  }

  lemma EnvironmentAt(odb: seq<OriginalTx>, D: Database, twu: TwuMap, a: nat)
    requires Environment(odb, D, twu) && a < |D|
    ensures |odb| == |D| && ColumnsOf(odb[a], D[a].items, twu) && D[a].tid == a
    ensures DistinctItems(D[a].items) && |D[a].items| < 0x1_0000
  {
    assert ValidTransaction(D[a]);
  }

  lemma FilteredFits(db: Database, twu: TwuMap, n: nat)
    requires ValidDatabase(db) && n <= |db| && FitsProjection(db)
    ensures FitsProjection(FilterDb(db[..n], twu))
  {
    FilterDbTotal(db, twu, n);
    FilterDbSorted(db, twu, n);
    PrefixTotal(db, n);
    FilteredShort(db, twu, n);
  }

  ghost predicate ItemsShort(D: Database) {
    forall k | 0 <= k < |D| :: |D[k].items| < 0x1_0000
  }

  lemma ShortSnoc(D: Database, n: nat)
    requires |D| == n + 1 && ItemsShort(D[..n]) && |D[n].items| < 0x1_0000
    ensures ItemsShort(D)
  {
    forall k | 0 <= k < |D| ensures |D[k].items| < 0x1_0000 {
      if k < n { assert D[..n][k] == D[k]; }
    }
  }

  lemma NothingFiltered(db: Database, twu: TwuMap)
    ensures FilterDb(db[..0], twu) == []
  {
  }

  lemma {:induction false} FilteredShort(db: Database, twu: TwuMap, n: nat)
    requires ValidDatabase(db) && n <= |db| && ItemsShort(db)
    ensures ItemsShort(FilterDb(db[..n], twu))
  {
    hide FilterDb, Apply, ValidDatabase;
    if n == 0 {
      NothingFiltered(db, twu);
    } else {
      FilteredShort(db, twu, n - 1);
      FilterDbStep(db, twu, n - 1);
      ApplyShort(twu, db[n - 1]);
      if Apply(twu, db[n - 1]).Some? { ShortSnoc(FilterDb(db[..n], twu), |FilterDb(db[..n - 1], twu)|); }
    }
  }

  /** The whole run, items taken in any order. If nothing was lost on the way, exactly the
      high-utility itemsets of the raw database are written (for EFIM-Closed, exactly the closed ones
      of the raw database), once each. Apart from disk errors, only a pool smaller than 24 bytes per
      transaction can lose anything, whatever the memory guard refuses. The ledger ends where it began
      exactly when all projections on the way to any visited prefix fit the guard together, or when
      there is nothing in it to lose. */
  method Run(db: Database, min: int, closedOnly: bool, guard: MemoryGuard, pool: BufferPool, out: ResultWriter)
    returns (ghost clean: Result<()>, ghost found: seq<Hui>, ghost lost: nat)
    requires ValidDatabase(db) && FitsProjection(db) && pool.Valid() && pool.Idle()
    modifies guard, pool`frames, pool`used, pool`guards, pool.store, pool.eviction, out
    ensures pool.Valid() && pool.Idle() && Grows(old(pool.Contents()), pool.Contents())
    ensures pool.store.faults >= old(pool.store.faults)
    ensures clean.Err? ==> Excused(clean.error, db, pool.budget, pool.store.faults > old(pool.store.faults))
    ensures out.huis == old(out.huis) + found && out.Lost() >= old(out.Lost())
    ensures Sound(db, found, Wanted(db, min, closedOnly))
    ensures clean.Ok? && out.Lost() == old(out.Lost()) ==> Emits(db, found, Wanted(db, min, closedOnly))
    ensures LedgerIs(old(guard.used), guard.used, lost, RunFits(db, min, old(guard.used), guard.budget), clean)
    ensures RunFits(db, min, old(guard.used), guard.budget) ==> clean.Ok?
    ensures pool.store.faults == old(pool.store.faults) && 24 * |db| <= pool.budget ==> clean.Ok?
    ensures pool.store.faults == old(pool.store.faults) && out.Lost() == old(out.Lost()) && 24 * |db| <= pool.budget ==>
              Emits(db, found, Wanted(db, min, closedOnly))
    ensures clean.Ok? ==>
              (guard.used == old(guard.used) <==> old(guard.used) == 0 || RunFits(db, min, old(guard.used), guard.budget))
  {
    hide *;
    clean, found, lost := Ok(()), [], 0;
    var filter := Compute(db, min);
    var twu := filter.twu;
    var odb := LoadDatabase(db, twu);
    ghost var D, W := FilterDb(db, twu), Wanted(FilterDb(db, twu), min, closedOnly);
    RunEnvironment(db, min, odb, twu);
    var size := DatabaseBytes(odb);
    guard.ForceAlloc(size);
    ghost var start, faults := guard.used, pool.store.faults;
    RunFitsIs(db, min, twu, odb, old(guard.used), guard.budget);
    var keys := twu.Keys;
    var rest := keys;
    MineStart(D, twu, {}, W);
    GrowsSelf(pool.Contents());
    assert keys - rest == {};
    LedgerStart(start, clean);
    DoneNext(D, twu, min, [], {}, 0, start, guard.budget);
    while rest != {}
      invariant rest <= keys
      invariant pool.Valid() && pool.Idle() && Grows(old(pool.Contents()), pool.Contents())
      invariant pool.store.faults >= faults && (clean.Err? ==> Excused(clean.error, D, pool.budget, pool.store.faults > faults))
      invariant out.huis == old(out.huis) + found && out.Lost() >= old(out.Lost())
      invariant Reports(D, found, Branches(twu, {}, keys - rest) * W, clean.Ok? && out.Lost() == old(out.Lost()))
      invariant LedgerIs(start, guard.used, lost, DoneFit(D, twu, min, [], keys - rest, start, guard.budget), clean)
      invariant DoneFit(D, twu, min, [], keys - rest, start, guard.budget) ==> clean.Ok?
      decreases rest
    {
      var x :| x in rest;
      ghost var task, more, before := Ok(()), [], pool.Contents();
      ghost var mid, leak, faultsMid, missed := guard.used, 0, pool.store.faults, out.Lost();
      var proj, itemUtil := InitialProject(odb, D, twu, x);
      InitialPrefix(db, D, min, twu, x, proj);
      assert {} + {x} == {x};
      assert [] + [x] == [x];
      task, more, leak := Descend(odb, D, twu, min, closedOnly, [x], {}, x, proj, itemUtil, guard, pool, out);
      GrowsTwice(old(pool.Contents()), before, pool.Contents());
      TopExpands(D, twu, min, x);
      ExcusedLater(clean, D, pool.budget, faults, faults, faultsMid, pool.store.faults);
      ExcusedLater(task, D, pool.budget, faults, faultsMid, pool.store.faults, pool.store.faults);
      ItemDone(D, twu, min, [], keys - rest, x, start, guard.budget, mid, guard.used, lost, leak, clean, task);
      lost := lost + leak;
      MineStep(D, twu, {}, x, keys - rest, x, W, found, clean.Ok? && missed == old(out.Lost()),
               more, task.Ok? && out.Lost() == missed);
      found := found + more;
      if clean.Ok? { clean := task; }
      assert keys - (rest - {x}) == (keys - rest) + {x};
      rest := rest - {x};
    }
    assert keys - rest == keys;
    forall x | Expands(D, twu, min, [], x) ensures x in keys { TopExpands(D, twu, min, x); }
    DoneAll(D, twu, min, [], keys, start, guard.budget);
    ghost var below := guard.used;
    guard.Free(size);
    LedgerAtEnd(old(guard.used), size, below, guard.used, lost, AllFit(D, twu, min, [], start, guard.budget), clean);
    RunCovers(db, min, twu, closedOnly, found, clean.Ok? && out.Lost() == old(out.Lost()));
    RunExcused(db, twu, pool.budget, pool.store.faults > old(pool.store.faults), clean);
  }

  /** The bytes forced for the filtered database itself. */
  ghost function DatabaseSize(D: Database): nat {
    if D == [] then 0 else DatabaseSize(D[..|D| - 1]) + 20 * |D[|D| - 1].items|
  }

  /** The guard never refuses this run a projection: a matter of the database, the threshold and the guard. */
  ghost predicate RunFits(db: Database, min: int, used: nat, budget: nat) {
    var twu := TwuOf(db, min);
    var D := FilterDb(db, twu);
    AllFit(D, twu, min, [], used + DatabaseSize(D), budget)
  }

  lemma RunFitsIs(db: Database, min: int, twu: TwuMap, odb: seq<OriginalTx>, used: nat, budget: nat)
    requires IsTwuFilter(db, min, twu) && Loaded(odb, FilterDb(db, twu), twu)
    ensures RunFits(db, min, used, budget) <==> AllFit(FilterDb(db, twu), twu, min, [], used + 20 * TotalItems(odb), budget)
  {
    hide AllFit, FilterDb, TwuOf;
    TwuOfIs(db, min);
    ItemsCounted(odb, FilterDb(db, twu), twu);
  }

  lemma {:induction false} ItemsCounted(odb: seq<OriginalTx>, D: Database, twu: TwuMap)
    requires Loaded(odb, D, twu)
    ensures 20 * TotalItems(odb) == DatabaseSize(D)
  {
    if D != [] { ItemsCounted(odb[..|D| - 1], D[..|D| - 1], twu); }
  }

  lemma TopExpands(D: Database, twu: TwuMap, min: int, x: ItemId)
    ensures Expands(D, twu, min, [], x) <==> x in twu.Keys
  {
  }

  lemma LedgerAtEnd(before: nat, size: nat, below: nat, now: nat, lost: nat, fits: bool, clean: Result<()>)
    requires LedgerIs(before + size, below, lost, fits, clean)
    requires now == (if size <= below then below - size else 0)
    ensures LedgerIs(before, now, lost, fits, clean)
    ensures clean.Ok? ==> (now == before <==> before == 0 || fits)
  {
  }

  method DatabaseBytes(odb: seq<OriginalTx>) returns (bytes: nat)
    ensures bytes == 20 * TotalItems(odb)
  {
    bytes := 0;
    for k := 0 to |odb|
      invariant bytes == 20 * TotalItems(odb[..k])
    {
      assert odb[..k + 1][..k] == odb[..k];
      bytes := bytes + |odb[k].items| * (4 + 8 + 8);
    }
    assert odb[..|odb|] == odb;
  }

  ghost function TotalItems(odb: seq<OriginalTx>): nat {
    if odb == [] then 0 else TotalItems(odb[..|odb| - 1]) + |odb[|odb| - 1].items|
  }

  lemma RunEnvironment(db: Database, min: int, odb: seq<OriginalTx>, twu: TwuMap)
    requires ValidDatabase(db) && FitsProjection(db) && Loaded(odb, FilterDb(db, twu), twu)
    ensures Environment(odb, FilterDb(db, twu), twu)
  {
    FilterDbSorted(db, twu, |db|);
    FilteredFits(db, twu, |db|);
    assert db[..|db|] == db;
  }

  lemma InitialPrefix(db: Database, D: Database, min: int, twu: TwuMap, x: ItemId, proj: seq<ProjTx>)
    requires ValidDatabase(db) && IsTwuFilter(db, min, twu) && D == FilterDb(db, twu) && x in twu
    requires Projects(D, twu, {x}, x, proj)
    ensures Prefix(twu, [x], x) && Elems([x]) == {x} && proj != []
  {
    hide FilterDb, UtilityIn, CoverSum, Twu, EntryMatches, UL, ValidDatabase;
    FilterDbSums(db, twu, {x}, |db|);
    assert db[..|db|] == db;
    ULSums(D, {x}, After(twu, x));
    assert Elems([x]) == {x};
  }

  lemma RunCovers(db: Database, min: int, twu: TwuMap, closedOnly: bool, found: seq<Hui>, complete: bool)
    requires ValidDatabase(db) && IsTwuFilter(db, min, twu)
    requires Reports(FilterDb(db, twu), found, Branches(twu, {}, twu.Keys) * Wanted(FilterDb(db, twu), min, closedOnly), complete)
    ensures Sound(db, found, Wanted(db, min, closedOnly)) && (complete ==> Emits(db, found, Wanted(db, min, closedOnly)))
  {
    hide FilterDb, Less, Closed, IsHui, ValidDatabase, IsTwuFilter;
    var D := FilterDb(db, twu);
    var W, W' := Wanted(D, min, closedOnly), Wanted(db, min, closedOnly);
    forall X
      ensures X in W <==> X in W'
      ensures X in W ==> X in Branches(twu, {}, twu.Keys) && Utility(D, X) == Utility(db, X)
    {
      FilterDbHuis(db, min, twu, X);
      if IsHui(db, min, X) {
        ClosedInFiltered(db, min, twu, X);
        HuiNonEmpty(db, min, X);
        var x := LeastItem(twu, X);
        assert X in Branch({}, x, After(twu, x)) by {
          forall y | y in X ensures y in {} + {x} + After(twu, x) { }
        }
      }
    }
    assert W == W';
    assert Branches(twu, {}, twu.Keys) * W == W;
    forall k | 0 <= k < |found| ensures found[k].utility == Utility(db, Elems(found[k].itemset)) {
      assert Elems(found[k].itemset) in W;
    }
  }

  lemma HuiNonEmpty(db: Database, min: int, X: ItemSet)
    requires IsHui(db, min, X)
    ensures X != {}
  {
  }

  lemma RunExcused(db: Database, twu: TwuMap, budget: nat, faulted: bool, clean: Result<()>)
    requires ValidDatabase(db) && (clean.Err? ==> Excused(clean.error, FilterDb(db, twu), budget, faulted))
    ensures clean.Err? ==> Excused(clean.error, db, budget, faulted)
    ensures !faulted && 24 * |db| <= budget ==> clean.Ok?
  {
    FilterDbSorted(db, twu, |db|);
    assert db[..|db|] == db;
  }

  /** Any database with a kept item, run when the guard has no room for a single projection entry: the
      ledger ends below where it began, so bytes that other parts of the program hold are no longer
      counted, and the guard grants what does not fit beside them. */
  method RunIntoFullGuard(db: Database, min: int, closedOnly: bool, guard: MemoryGuard, pool: BufferPool, out: ResultWriter)
    returns (ghost clean: Result<()>, granted: bool)
    requires ValidDatabase(db) && FitsProjection(db) && pool.Valid() && pool.Idle() && PassingItems(db, min) != {}
    requires 24 <= guard.used <= guard.budget < guard.used + 24
    modifies guard, pool`frames, pool`used, pool`guards, pool.store, pool.eviction, out
    ensures clean.Ok? ==> granted && old(guard.used) + 24 > guard.budget
    ensures pool.store.faults == old(pool.store.faults) && 24 * |db| <= pool.budget ==> clean.Ok?
  {
    ghost var found, lost;
    FullGuardRefuses(db, min, guard.used, guard.budget);
    clean, found, lost := Run(db, min, closedOnly, guard, pool, out);
    granted := guard.TryAlloc(24);
  }

  lemma FullGuardRefuses(db: Database, min: int, used: nat, budget: nat)
    requires ValidDatabase(db) && PassingItems(db, min) != {} && used + 24 > budget
    ensures !RunFits(db, min, used, budget)
  {
    hide FilterDb, TwuOf, PassingItems, Twu, BranchFits, Supported;
    TwuOfIs(db, min);
    var twu := TwuOf(db, min);
    var D := FilterDb(db, twu);
    var x :| x in PassingItems(db, min);
    assert db[..|db|] == db;
    FilterDbSums(db, twu, {x}, |db|);
    SupportedBytes(D, {x});
    TopExpands(D, twu, min, x);
    AllFitIff(D, twu, min, [], used + DatabaseSize(D), budget);
    assert [] + [x] == [x] && Elems([x]) == {x};
    BranchTooBig(D, twu, min, [x], used + DatabaseSize(D), budget);
  }

  lemma BranchTooBig(D: Database, twu: TwuMap, min: int, p: seq<ItemId>, used: nat, budget: nat)
    requires used + ProjectionBytes(D, Elems(p)) > budget
    ensures !BranchFits(D, twu, min, p, used, budget)
  {
  }
}
