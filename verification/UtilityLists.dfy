/** Utility lists: one entry per transaction that contains an itemset, with the itemset's utility
    there and the utility of the items that may still be added (src/types/utility_list.rs,
    src/mining/components/ul_join.rs). */
module UtilityLists {
  import opened Huim
  import opened Bytes

  datatype ULEntry = ULEntry(tid: nat, iutils: int, rutils: int)

  datatype UtilityList = UtilityList(itemset: seq<ItemId>, sumIutils: int, sumRutils: int, len: nat)
  {
    function Bound(): int {
      sumIutils + sumRutils
    }

    predicate CanPrune(min: int) {
      len == 0 || Bound() < min
    }

    predicate IsHighUtility(min: int) {
      len > 0 && sumIutils >= min
    }
  }

  /** The limits of the integer types: utilities in i64 with room for one addition, transaction ids
      in u32, and every list small enough for a page. */
  ghost predicate FitsWidths(db: Database) {
    && 2 * TotalTu(db) <= I64_MAX
    && 20 * |db| < TWO_32
    && (forall k | 0 <= k < |db| :: db[k].tid < TWO_32)
  }

  /** Transactions are numbered by their position. */
  ghost predicate Numbered(db: Database) {
    forall k | 0 <= k < |db| :: db[k].tid == k
  }

  ghost function Entry(t: Transaction, X: ItemSet, R: ItemSet): ULEntry {
    ULEntry(t.tid, UtilityIn(t.items, X), UtilityIn(t.items, R))
  }

  /** The utility list of X when the items of R may still be added. */
  ghost function UL(db: Database, X: ItemSet, R: ItemSet): seq<ULEntry> {
    if db == [] then []
    else
      var t := db[|db| - 1];
      UL(db[..|db| - 1], X, R) + (if X <= ItemsOf(t.items) then [Entry(t, X, R)] else [])
  }

  ghost function SumI(es: seq<ULEntry>): int {
    if es == [] then 0 else SumI(es[..|es| - 1]) + es[|es| - 1].iutils
  }

  ghost function SumR(es: seq<ULEntry>): int {
    if es == [] then 0 else SumR(es[..|es| - 1]) + es[|es| - 1].rutils
  }

  /** The header a list must carry. */
  ghost predicate HeaderOf(ul: UtilityList, db: Database, X: ItemSet, R: ItemSet) {
    && Distinct(ul.itemset) && Elems(ul.itemset) == X
    && ul.sumIutils == SumI(UL(db, X, R))
    && ul.sumRutils == SumR(UL(db, X, R))
    && ul.len == |UL(db, X, R)|
  }

  /** A list is pruned exactly if its itemset is unsupported, or what it has together with what may still
      be added misses the threshold. */
  lemma PrunedIff(ul: UtilityList, db: Database, X: ItemSet, R: ItemSet, min: int)
    requires HeaderOf(ul, db, X, R)
    ensures ul.CanPrune(min) <==> !Supported(db, X) || Utility(db, X) + CoverSum(db, X, R) < min
    ensures X != {} ==> (ul.IsHighUtility(min) <==> IsHui(db, min, X))
  {
    ULSums(db, X, R);
  }

  lemma ULStep(db: Database, n: nat, X: ItemSet, R: ItemSet)
    requires n < |db|
    ensures UL(db[..n + 1], X, R) == UL(db[..n], X, R) + (if X <= ItemsOf(db[n].items) then [Entry(db[n], X, R)] else [])
  {
    assert db[..n + 1][..n] == db[..n];
  }

  /** A list holds the exact utility and support of its itemset. */
  lemma {:induction false} ULSums(db: Database, X: ItemSet, R: ItemSet)
    ensures SumI(UL(db, X, R)) == Utility(db, X)
    ensures SumR(UL(db, X, R)) == CoverSum(db, X, R)
    ensures |UL(db, X, R)| > 0 <==> Supported(db, X)
    ensures |UL(db, X, R)| <= |db|
  {
    if db != [] {
      var n := |db| - 1;
      ULSums(db[..n], X, R);
      PrefixStep(db, n, X, X);
      PrefixStep(db, n, X, R);
      assert db[..n + 1] == db;
      if X <= ItemsOf(db[n].items) {
        var l := UL(db, X, R);
        assert l[..|l| - 1] == UL(db[..n], X, R);
      } else {
        assert UL(db, X, R) == UL(db[..n], X, R);
      }
    }
  }

  /** Between n and m no transaction contains X, so the list does not grow. */
  lemma {:induction false} ULGap(db: Database, X: ItemSet, R: ItemSet, n: nat, m: nat)
    requires n <= m <= |db| && forall k | n <= k < m :: !(X <= ItemsOf(db[k].items))
    ensures UL(db[..m], X, R) == UL(db[..n], X, R)
  {
    if n < m {
      ULStep(db, m - 1, X, R);
      ULGap(db, X, R, n, m - 1);
    }
  }

  lemma {:induction false} ULPrefix(db: Database, X: ItemSet, R: ItemSet, n: nat, m: nat)
    requires n <= m <= |db|
    ensures UL(db[..n], X, R) <= UL(db[..m], X, R)
  {
    if n < m {
      ULStep(db, m - 1, X, R);
      ULPrefix(db, X, R, n, m - 1);
    }
  }

  lemma {:induction false} ULTids(db: Database, X: ItemSet, R: ItemSet, n: nat, m: nat)
    requires ValidDatabase(db) && n <= m < |db|
    ensures forall k | 0 <= k < |UL(db[..n], X, R)| :: UL(db[..n], X, R)[k].tid < db[m].tid
  {
    if n > 0 {
      ULStep(db, n - 1, X, R);
      ULTids(db, X, R, n - 1, m);
      assert db[n - 1].tid < db[m].tid;
    }
  }

  /** The entry of transaction a: its place in the list, with smaller ids before it. */
  lemma EntryAt(db: Database, X: ItemSet, R: ItemSet, a: nat)
    requires ValidDatabase(db) && a < |db| && X <= ItemsOf(db[a].items)
    ensures var q := |UL(db[..a], X, R)|;
            && q < |UL(db, X, R)| && UL(db, X, R)[q] == Entry(db[a], X, R)
            && (forall k | 0 <= k < q :: UL(db, X, R)[k].tid < db[a].tid)
  {
    ULStep(db, a, X, R);
    ULPrefix(db, X, R, a + 1, |db|);
    ULTids(db, X, R, a, a);
    assert db[..|db|] == db;
  }

  /** The transaction behind the next unread entry. */
  lemma {:induction false} NextEntry(db: Database, X: ItemSet, R: ItemSet, n: nat) returns (a: nat)
    requires ValidDatabase(db) && n <= |db| && |UL(db[..n], X, R)| < |UL(db, X, R)|
    ensures n <= a < |db| && X <= ItemsOf(db[a].items)
    ensures forall k | n <= k < a :: !(X <= ItemsOf(db[k].items))
    ensures UL(db[..a], X, R) == UL(db[..n], X, R)
    ensures UL(db, X, R)[|UL(db[..n], X, R)|] == Entry(db[a], X, R)
    decreases |db| - n
  {
    assert db[..|db|] == db;
    if X <= ItemsOf(db[n].items) {
      a := n;
      EntryAt(db, X, R, a);
    } else {
      ULStep(db, n, X, R);
      a := NextEntry(db, X, R, n + 1);
    }
  }

  /** When every entry is read, no later transaction contains X. */
  lemma {:induction false} NoMoreEntries(db: Database, X: ItemSet, R: ItemSet, n: nat)
    requires ValidDatabase(db) && n <= |db| && |UL(db[..n], X, R)| >= |UL(db, X, R)|
    ensures forall k | n <= k < |db| :: !(X <= ItemsOf(db[k].items))
  {
    forall k | n <= k < |db| ensures !(X <= ItemsOf(db[k].items)) {
      if X <= ItemsOf(db[k].items) {
        ULPrefix(db, X, R, n, k);
        EntryAt(db, X, R, k);
      }
    }
  }

  // ----- the merge

  /** u(P+x) + u(P+y) - u(P) counts P once. */
  lemma JoinUtility(es: seq<ItemEntry>, P: ItemSet, x: ItemId, y: ItemId)
    requires x != y && x !in P && y !in P
    ensures UtilityIn(es, P + {x} + {y}) == UtilityIn(es, P + {x}) + UtilityIn(es, P + {y}) - UtilityIn(es, P)
  {
    UtilityInAdditive(es, P, {x});
    UtilityInAdditive(es, P, {y});
    UtilityInAdditive(es, P + {x}, {y});
  }

  /** The itemsets of a join: Z = X + Y, where X and Y each add one item to P. */
  ghost predicate Joins(P: ItemSet, X: ItemSet, Y: ItemSet, Z: ItemSet) {
    exists x, y :: x != y && x !in P && y !in P && X == P + {x} && Y == P + {y} && Z == P + {x} + {y}
  }

  lemma JoinsCover(P: ItemSet, X: ItemSet, Y: ItemSet, Z: ItemSet, es: seq<ItemEntry>)
    requires Joins(P, X, Y, Z)
    ensures Z == X + Y && P <= X
    ensures UtilityIn(es, Z) == UtilityIn(es, X) + UtilityIn(es, Y) - UtilityIn(es, P)
  {
    hide UtilityIn;
    var x, y :| x != y && x !in P && y !in P && X == P + {x} && Y == P + {y} && Z == P + {x} + {y};
    assert P + {x} + {y} == P + {x} + (P + {y});
    JoinUtility(es, P, x, y);
  }

  /** Where a merge of two lists stands: all entries of the first n transactions have been consumed. */
  ghost predicate Merged(db: Database, X: ItemSet, Y: ItemSet, Z: ItemSet, Rx: ItemSet, Ry: ItemSet, n: nat,
                         i: nat, j: nat, result: seq<ULEntry>) {
    && n <= |db|
    && i == |UL(db[..n], X, Rx)|
    && j == |UL(db[..n], Y, Ry)|
    && result == UL(db[..n], Z, Ry)
  }

  lemma CoverBoth(db: Database, X: ItemSet, Y: ItemSet, Z: ItemSet)
    requires Z == X + Y
    ensures forall k | 0 <= k < |db| :: Z <= ItemsOf(db[k].items) <==> X <= ItemsOf(db[k].items) && Y <= ItemsOf(db[k].items)
  {
  }

  /** One step of the merge: the smaller of the two next transactions is consumed. */
  lemma MergeStep(db: Database, X: ItemSet, Y: ItemSet, Z: ItemSet, Rx: ItemSet, Ry: ItemSet, n: nat, i: nat, j: nat,
                  result: seq<ULEntry>) returns (c: nat)
    requires ValidDatabase(db) && Z == X + Y && Merged(db, X, Y, Z, Rx, Ry, n, i, j, result)
    requires i < |UL(db, X, Rx)| && j < |UL(db, Y, Ry)|
    ensures n <= c < |db| && forall k | n <= k < c :: !(Z <= ItemsOf(db[k].items))
    ensures var u, v, t := UL(db, X, Rx)[i], UL(db, Y, Ry)[j], db[c];
            && (u.tid == v.tid ==>
                  && u == Entry(t, X, Rx) && v == Entry(t, Y, Ry) && Z <= ItemsOf(t.items)
                  && Merged(db, X, Y, Z, Rx, Ry, c + 1, i + 1, j + 1, result + [Entry(t, Z, Ry)]))
            && (u.tid != v.tid ==> !(Z <= ItemsOf(t.items)))
            && (u.tid < v.tid ==> Merged(db, X, Y, Z, Rx, Ry, c + 1, i + 1, j, result))
            && (u.tid > v.tid ==> Merged(db, X, Y, Z, Rx, Ry, c + 1, i, j + 1, result))
  {
    hide ItemsOf;
    var a := NextEntry(db, X, Rx, n);
    var b := NextEntry(db, Y, Ry, n);
    c := if a < b then a else b;
    CoverBoth(db, X, Y, Z);
    ULGap(db, X, Rx, n, c);
    ULGap(db, Y, Ry, n, c);
    ULGap(db, Z, Ry, n, c);
    ULStep(db, c, X, Rx);
    ULStep(db, c, Y, Ry);
    ULStep(db, c, Z, Ry);
    assert a < b ==> db[a].tid < db[b].tid;
    assert b < a ==> db[b].tid < db[a].tid;
  }

  lemma MergeDone(db: Database, X: ItemSet, Y: ItemSet, Z: ItemSet, Rx: ItemSet, Ry: ItemSet, n: nat, i: nat, j: nat,
                  result: seq<ULEntry>)
    requires ValidDatabase(db) && Z == X + Y && Merged(db, X, Y, Z, Rx, Ry, n, i, j, result)
    requires i >= |UL(db, X, Rx)| || j >= |UL(db, Y, Ry)|
    ensures n <= |db| && result == UL(db, Z, Ry)
    ensures forall k | n <= k < |db| :: !(Z <= ItemsOf(db[k].items))
  {
    if i >= |UL(db, X, Rx)| {
      NoMoreEntries(db, X, Rx, n);
    } else {
      NoMoreEntries(db, Y, Ry, n);
    }
    CoverBoth(db, X, Y, Z);
    ULGap(db, Z, Ry, n, |db|);
    assert db[..|db|] == db;
  }

  lemma SumsSnoc(es: seq<ULEntry>, e: ULEntry)
    ensures SumI(es + [e]) == SumI(es) + e.iutils && SumR(es + [e]) == SumR(es) + e.rutils
  {
    assert (es + [e])[..|es|] == es;
  }

  /** The body the search hands over for the prefix: none for the empty prefix. */
  ghost function PrefixBody(db: Database, P: ItemSet, Rp: ItemSet): seq<ULEntry> {
    if P == {} then [] else UL(db, P, Rp)
  }

  /** The two-pointer merge, taken when the prefix has no entries. */
  method MergeTwo(ghost db: Database, ghost P: ItemSet, ghost X: ItemSet, ghost Y: ItemSet, ghost Z: ItemSet,
                  ghost Rp: ItemSet, ghost Rx: ItemSet, ghost Ry: ItemSet, pxBody: seq<ULEntry>, pyBody: seq<ULEntry>)
    returns (result: seq<ULEntry>, sumIutils: int, sumRutils: int)
    requires ValidDatabase(db) && Joins(P, X, Y, Z) && PrefixBody(db, P, Rp) == []
    requires pxBody == UL(db, X, Rx) && pyBody == UL(db, Y, Ry)
    ensures result == UL(db, Z, Ry)
    ensures sumIutils == SumI(result) && sumRutils == SumR(result)
  {
    hide UL, SumI, SumR, PrefixBody, ValidDatabase, Joins, UtilityIn;
    result, sumIutils, sumRutils := [], 0, 0;
    ghost var n: nat := 0;
    var i, j := 0, 0;
    MergeStart(db, X, Y, Z, Rx, Ry);
    JoinsCover(P, X, Y, Z, []);
    while i < |pxBody| && j < |pyBody|
      invariant Merged(db, X, Y, Z, Rx, Ry, n, i, j, result)
      invariant sumIutils == SumI(result) && sumRutils == SumR(result)
      decreases |pxBody| + |pyBody| - i - j
    {
      ghost var c := MergeStep(db, X, Y, Z, Rx, Ry, n, i, j, result);
      JoinsCover(P, X, Y, Z, db[c].items);
      n := c + 1;
      if pxBody[i].tid == pyBody[j].tid {
        EmptyPrefix(db, P, Rp, c);
        var tid, iutils, rutils := pxBody[i].tid, pxBody[i].iutils + pyBody[j].iutils, pyBody[j].rutils;
        SumsSnoc(result, ULEntry(tid, iutils, rutils));
        sumIutils, sumRutils := sumIutils + iutils, sumRutils + rutils;
        result := result + [ULEntry(tid, iutils, rutils)];
        i, j := i + 1, j + 1;
      } else if pxBody[i].tid < pyBody[j].tid {
        i := i + 1;
      } else {
        j := j + 1;
      }
    }
    MergeDone(db, X, Y, Z, Rx, Ry, n, i, j, result);
  }

  lemma MergeStart(db: Database, X: ItemSet, Y: ItemSet, Z: ItemSet, Rx: ItemSet, Ry: ItemSet)
    ensures Merged(db, X, Y, Z, Rx, Ry, 0, 0, 0, []) && SumI([]) == 0 && SumR([]) == 0
  {
  }

  /** Moves the prefix pointer to the entry of transaction a and reads the utility to subtract. */
  method SeekPrefix(ghost db: Database, ghost P: ItemSet, ghost Rp: ItemSet, ghost a: nat, prefixBody: seq<ULEntry>,
                    p0: nat, tid: nat)
    returns (p: nat, prefixIutils: int)
    requires ValidDatabase(db) && a < |db| && P <= ItemsOf(db[a].items) && tid == db[a].tid
    requires prefixBody == UL(db, P, Rp) && p0 <= |UL(db[..a], P, Rp)|
    ensures p == |UL(db[..a], P, Rp)|
    ensures prefixIutils == UtilityIn(db[a].items, P)
  {
    EntryAt(db, P, Rp, a);
    ghost var q := |UL(db[..a], P, Rp)|;
    p := p0;
    while p < |prefixBody| && prefixBody[p].tid < tid
      invariant p <= q
      decreases |prefixBody| - p
    {
      p := p + 1;
    }
    prefixIutils := if p < |prefixBody| && prefixBody[p].tid == tid then prefixBody[p].iutils else 0;
  }

  /** The three-pointer merge: a third pointer finds the prefix entry to subtract. */
  method MergeThree(ghost db: Database, ghost P: ItemSet, ghost X: ItemSet, ghost Y: ItemSet, ghost Z: ItemSet,
                    ghost Rp: ItemSet, ghost Rx: ItemSet, ghost Ry: ItemSet,
                    prefixBody: seq<ULEntry>, pxBody: seq<ULEntry>, pyBody: seq<ULEntry>)
    returns (result: seq<ULEntry>, sumIutils: int, sumRutils: int)
    requires ValidDatabase(db) && Joins(P, X, Y, Z) && prefixBody == UL(db, P, Rp)
    requires pxBody == UL(db, X, Rx) && pyBody == UL(db, Y, Ry)
    ensures result == UL(db, Z, Ry)
    ensures sumIutils == SumI(result) && sumRutils == SumR(result)
  {
    hide UL, SumI, SumR, PrefixBody, ValidDatabase, Joins, UtilityIn;
    result, sumIutils, sumRutils := [], 0, 0;
    ghost var n: nat := 0;
    var p: nat := 0;
    var i, j := 0, 0;
    MergeStart(db, X, Y, Z, Rx, Ry);
    JoinsCover(P, X, Y, Z, []);
    while i < |pxBody| && j < |pyBody|
      invariant Merged(db, X, Y, Z, Rx, Ry, n, i, j, result)
      invariant sumIutils == SumI(result) && sumRutils == SumR(result)
      invariant n <= |db| && p <= |UL(db[..n], P, Rp)|
      decreases |pxBody| + |pyBody| - i - j
    {
      ghost var c := MergeStep(db, X, Y, Z, Rx, Ry, n, i, j, result);
      JoinsCover(P, X, Y, Z, db[c].items);
      ULPrefix(db, P, Rp, n, c);
      ULPrefix(db, P, Rp, c, c + 1);
      n := c + 1;
      if pxBody[i].tid != pyBody[j].tid {
        if pxBody[i].tid < pyBody[j].tid { i := i + 1; } else { j := j + 1; }
      } else {
        var tid, prefixIutils := pxBody[i].tid, 0;
        p, prefixIutils := SeekPrefix(db, P, Rp, c, prefixBody, p, tid);
        var iutils, rutils := pxBody[i].iutils + pyBody[j].iutils - prefixIutils, pyBody[j].rutils;
        SumsSnoc(result, ULEntry(tid, iutils, rutils));
        sumIutils, sumRutils := sumIutils + iutils, sumRutils + rutils;
        result := result + [ULEntry(tid, iutils, rutils)];
        i, j := i + 1, j + 1;
      }
    }
    MergeDone(db, X, Y, Z, Rx, Ry, n, i, j, result);
  }

  /** From the lists of P, X = P+x and Y = P+y, the list of Z = P+x+y and its sums. An empty prefix
      body is always safe: it stands for the empty prefix, or for one no transaction contains. */
  method Merge(ghost db: Database, ghost P: ItemSet, ghost X: ItemSet, ghost Y: ItemSet, ghost Z: ItemSet,
               ghost Rp: ItemSet, ghost Rx: ItemSet, ghost Ry: ItemSet,
               prefixBody: seq<ULEntry>, pxBody: seq<ULEntry>, pyBody: seq<ULEntry>)
    returns (result: seq<ULEntry>, sumIutils: int, sumRutils: int)
    requires ValidDatabase(db) && Joins(P, X, Y, Z) && prefixBody == PrefixBody(db, P, Rp)
    requires pxBody == UL(db, X, Rx) && pyBody == UL(db, Y, Ry)
    ensures result == UL(db, Z, Ry)
    ensures sumIutils == SumI(result) && sumRutils == SumR(result)
  {
    if prefixBody == [] {
      result, sumIutils, sumRutils := MergeTwo(db, P, X, Y, Z, Rp, Rx, Ry, pxBody, pyBody);
    } else {
      result, sumIutils, sumRutils := MergeThree(db, P, X, Y, Z, Rp, Rx, Ry, prefixBody, pxBody, pyBody);
    }
  }

  /** With no prefix entries, a transaction that contains P gives P no utility: P is empty. */
  lemma EmptyPrefix(db: Database, P: ItemSet, Rp: ItemSet, a: nat)
    requires ValidDatabase(db) && a < |db| && P <= ItemsOf(db[a].items) && PrefixBody(db, P, Rp) == []
    ensures UtilityIn(db[a].items, P) == 0
  {
    if P != {} { EntryAt(db, P, Rp, a); }
    UtilityInEmpty(db[a].items);
  }

  // ----- bytes

  ghost predicate EntryFits(e: ULEntry) {
    e.tid < TWO_32 && InI64(e.iutils) && InI64(e.rutils)
  }

  function EntryBytes(e: ULEntry): (b: seq<Byte>)
    requires EntryFits(e)
    ensures |b| == 20
  {
    ToLe(e.tid, 4) + I64ToLe(e.iutils) + I64ToLe(e.rutils)
  }

  function EntryFromBytes(b: seq<Byte>): ULEntry
    requires |b| == 20
  {
    ULEntry(FromLe(b[0..4]), I64FromLe(b[4..12]), I64FromLe(b[12..20]))
  }

  lemma EntryRoundTrip(e: ULEntry)
    requires EntryFits(e)
    ensures EntryFromBytes(EntryBytes(e)) == e
  {
    var b := EntryBytes(e);
    assert b[0..4] == ToLe(e.tid, 4) && b[4..12] == I64ToLe(e.iutils) && b[12..20] == I64ToLe(e.rutils);
    Widths();
    LeRoundTrip(e.tid, 4);
    I64RoundTrip(e.iutils);
    I64RoundTrip(e.rutils);
  }

  ghost predicate EntriesFit(es: seq<ULEntry>) {
    forall k | 0 <= k < |es| :: EntryFits(es[k])
  }

  ghost function BodyBytes(es: seq<ULEntry>): (b: seq<Byte>)
    requires EntriesFit(es)
    ensures |b| == 20 * |es|
  {
    if es == [] then [] else BodyBytes(es[..|es| - 1]) + EntryBytes(es[|es| - 1])
  }

  method SerializeBody(es: seq<ULEntry>) returns (buf: seq<Byte>)
    requires EntriesFit(es)
    ensures buf == BodyBytes(es)
  {
    buf := [];
    for k := 0 to |es|
      invariant buf == BodyBytes(es[..k])
    {
      assert es[..k + 1][..k] == es[..k];
      buf := buf + EntryBytes(es[k]);
    }
    assert es[..|es|] == es;
  }

  /** Twenty bytes to an entry; the source panics unless the length is a multiple of twenty. */
  function DeserializeBody(b: seq<Byte>): seq<ULEntry>
    requires |b| % 20 == 0
  {
    seq(|b| / 20, k requires 0 <= k < |b| / 20 => EntryFromBytes(b[20 * k..20 * k + 20]))
  }

  /** A spilled list reads back as it was. */
  lemma {:induction false} BodyRoundTrip(es: seq<ULEntry>)
    requires EntriesFit(es)
    ensures DeserializeBody(BodyBytes(es)) == es
  {
    var b := BodyBytes(es);
    forall k | 0 <= k < |es|
      ensures EntryFromBytes(b[20 * k..20 * k + 20]) == es[k]
    {
      BodyBytesAt(es, k);
      EntryRoundTrip(es[k]);
    }
  }

  lemma {:induction false} BodyBytesAt(es: seq<ULEntry>, k: nat)
    requires EntriesFit(es) && k < |es|
    ensures BodyBytes(es)[20 * k..20 * k + 20] == EntryBytes(es[k])
  {
    var n := |es| - 1;
    if k < n {
      BodyBytesAt(es[..n], k);
      assert BodyBytes(es)[20 * k..20 * k + 20] == BodyBytes(es[..n])[20 * k..20 * k + 20];
    }
  }

  // ----- no overflow

  /** If twice the total transaction utility fits in 64 bits, every entry of every list fits. */
  lemma {:induction false} ULFits(db: Database, X: ItemSet, R: ItemSet)
    requires ValidDatabase(db) && TotalTu(db) <= I64_MAX && forall k | 0 <= k < |db| :: db[k].tid < TWO_32
    ensures EntriesFit(UL(db, X, R))
  {
    if db != [] {
      var n := |db| - 1;
      var t := db[n];
      assert db[..n + 1] == db;
      PrefixStep(db, n, {}, {});
      PrefixTotal(db, n);
      ULFits(db[..n], X, R);
      TransactionFits(t, X);
      TransactionFits(t, R);
    }
  }

  lemma TransactionFits(t: Transaction, X: ItemSet)
    requires ValidTransaction(t)
    ensures 0 <= UtilityIn(t.items, X) <= t.tu
  {
    UtilityInRestrict(t.items, X, X * ItemsOf(t.items));
    UtilityInMonotone(t.items, X * ItemsOf(t.items), ItemsOf(t.items));
  }

  /** The join's largest intermediate value, px + py before the prefix is subtracted, stays within 64 bits. */
  lemma JoinFits(db: Database, n: nat, X: ItemSet, Y: ItemSet)
    requires ValidDatabase(db) && FitsWidths(db) && n < |db|
    ensures InI64(UtilityIn(db[n].items, X) + UtilityIn(db[n].items, Y))
  {
    PrefixTotal(db, n);
    PrefixTotal(db, n + 1);
    PrefixStep(db, n, {}, {});
    assert ValidTransaction(db[n]);
    TransactionFits(db[n], X);
    TransactionFits(db[n], Y);
  }

  /** The sums of a list, while it is built and when it is whole, and the bound can_prune adds up from
      them, stay within 64 bits. */
  lemma SumsFit(db: Database, n: nat, X: ItemSet, R: ItemSet)
    requires ValidDatabase(db) && FitsWidths(db) && n <= |db|
    ensures InI64(CoverSum(db[..n], X, X)) && InI64(CoverSum(db[..n], X, R))
    ensures InI64(CoverSum(db[..n], X, X) + CoverSum(db[..n], X, R))
  {
    PrefixTotal(db, n);
    ValidPrefix(db, n);
    CoverSumBelowTwu(db[..n], X, X);
    CoverSumBelowTwu(db[..n], X, R);
    TwuMonotone(db[..n], {}, X);
    TwuMonotone(db[..n], {}, {});
  }

  lemma {:induction false} PrefixTotal(db: Database, n: nat)
    requires ValidDatabase(db) && n <= |db|
    ensures 0 <= TotalTu(db[..n]) <= TotalTu(db)
    decreases |db| - n
  {
    ValidPrefix(db, n);
    TwuMonotone(db[..n], {}, {});
    if n == |db| {
      assert db[..n] == db;
    } else {
      PrefixStep(db, n, {}, {});
      assert ValidTransaction(db[n]);
      UtilityInNonNegative(db[n].items, ItemsOf(db[n].items));
      PrefixTotal(db, n + 1);
    }
  }
}
