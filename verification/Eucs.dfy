/** The pairwise co-occurrence table: for two items, the summed transaction utility of the
    transactions that contain both (src/mining/components/eucs.rs). */
module EucsTable {
  import opened Huim
  import opened TwuFilter
  import opened Memory

  type Pair = (ItemId, ItemId)

  // Contracts write this number out.
  const ENTRY_BYTES: nat := 32

  /** Pairs are stored smaller item first. */
  function PairOf(x: ItemId, y: ItemId): Pair {
    if x < y then (x, y) else (y, x)
  }

  /** What the table tells the search: a pair below the threshold, or never recorded, is cut. */
  predicate Cuts(table: map<Pair, int>, x: ItemId, y: ItemId, min: int) {
    PairOf(x, y) in table ==> table[PairOf(x, y)] < min
  }

  /** No two items of X are cut. */
  ghost predicate PairsKept(table: map<Pair, int>, min: int, X: ItemSet) {
    forall x, y | x in X && y in X && x != y :: !Cuts(table, x, y, min)
  }

  /** The pairs of kept items that occur together. */
  ghost predicate Cooccur(db: Database, keep: ItemSet, p: Pair) {
    p.0 < p.1 && p.0 in keep && p.1 in keep && Supported(db, {p.0, p.1})
  }

  /** The complete table. */
  ghost predicate Complete(db: Database, keep: ItemSet, table: map<Pair, int>) {
    && (forall p :: p in table <==> Cooccur(db, keep, p))
    && (forall p | p in table :: table[p] == Twu(db, {p.0, p.1}))
  }

  /** A complete table never cuts a pair inside a high-utility itemset. */
  lemma CompleteKeepsHuis(db: Database, min: int, keep: ItemSet, table: map<Pair, int>, X: ItemSet)
    requires ValidDatabase(db) && Complete(db, keep, table) && IsHui(db, min, X) && X <= keep
    ensures PairsKept(table, min, X)
  {
    forall x, y | x in X && y in X && x != y ensures !Cuts(table, x, y, min) {
      var p := PairOf(x, y);
      assert {p.0, p.1} <= X;
      HuiSubsetTwu(db, min, X, {p.0, p.1});
      assert Cooccur(db, keep, p);
    }
  }

  // ----- the table as a function of the database and of the room the guard has

  type Table = map<Pair, int>

  function Amount(table: Table, p: Pair): int {
    if p in table then table[p] else 0
  }

  /** How many more entries the guard will grant. */
  function Room(used: nat, budget: nat): nat {
    if used + ENTRY_BYTES <= budget then (budget - used) / ENTRY_BYTES else 0
  }

  lemma RoomStep(used: nat, budget: nat)
    ensures Room(used, budget) > 0 <==> used + ENTRY_BYTES <= budget
    ensures Room(used, budget) > 0 ==> Room(used + ENTRY_BYTES, budget) == Room(used, budget) - 1
  {
  }

  lemma NoRoom(used: nat, budget: nat)
    ensures Room(used, budget) == 0 <==> used + 32 > budget
  {
  }

  /** The pairs from row i and column j on, in the order the two loops visit them. */
  function PairsFrom(items: seq<ItemId>, i: nat, j: nat): seq<Pair>
    decreases |items| - i, |items| - j
  {
    if i >= |items| then []
    else if j >= |items| then PairsFrom(items, i + 1, i + 2)
    else [PairOf(items[i], items[j])] + PairsFrom(items, i, j + 1)
  }

  /** Bumps the pairs in order and stops at the first new one there is no room for. */
  ghost function Tracked(table: Table, pairs: seq<Pair>, tu: int, room: nat): Table
    decreases |pairs|
  {
    if pairs == [] || (pairs[0] !in table && room == 0) then table
    else
      var p := pairs[0];
      Tracked(table[p := Amount(table, p) + tu], pairs[1..], tu, if p in table then room else room - 1)
  }

  /** The pairs of one transaction, cut to the kept items in processing order. */
  ghost function PairsOf(twu: TwuMap, t: Transaction): seq<Pair> {
    match Apply(twu, t)
    case None => []
    case Some(f) => PairsFrom(ItemIds(f.items), 0, 1)
  }

  /** The table after the database, when there was room for so many entries at the start. */
  ghost function FinalTable(db: Database, twu: TwuMap, room: nat): Table {
    if db == [] then map[]
    else
      var before := FinalTable(db[..|db| - 1], twu, room);
      Tracked(before, PairsOf(twu, db[|db| - 1]), db[|db| - 1].tu, if |before| <= room then room - |before| else 0)
  }

  lemma PairsOfIs(twu: TwuMap, t: Transaction)
    ensures Apply(twu, t).None? ==> PairsOf(twu, t) == []
    ensures Apply(twu, t).Some? ==> PairsOf(twu, t) == PairsFrom(ItemIds(Apply(twu, t).value.items), 0, 1)
  {
  }

  // ----- which pairs get in: the first ones, counted without repetition

  ghost function AllPairs(db: Database, twu: TwuMap): seq<Pair> {
    if db == [] then [] else AllPairs(db[..|db| - 1], twu) + PairsOf(twu, db[|db| - 1])
  }

  /** The first `room` distinct pairs of a sequence. */
  ghost function FirstPairs(s: seq<Pair>, room: nat): set<Pair> {
    if s == [] then {}
    else
      var first := FirstPairs(s[..|s| - 1], room);
      if |first| < room then first + {s[|s| - 1]} else first
  }

  lemma FirstNone(room: nat)
    ensures FirstPairs([], room) == {}
  {
  }

  lemma FirstSnoc(s: seq<Pair>, p: Pair, room: nat)
    ensures FirstPairs(s + [p], room) == if |FirstPairs(s, room)| < room then FirstPairs(s, room) + {p} else FirstPairs(s, room)
  {
    assert (s + [p])[..|s|] == s;
  }

  lemma {:induction false} FirstBounds(s: seq<Pair>, room: nat)
    ensures FirstPairs(s, room) <= Elems(s) && |FirstPairs(s, room)| <= room
    ensures |FirstPairs(s, room)| < room ==> FirstPairs(s, room) == Elems(s)
  {
    if s != [] {
      var n := |s| - 1;
      FirstBounds(s[..n], room);
      assert s == s[..n] + [s[n]];
      assert Elems(s) == Elems(s[..n]) + {s[n]};
    }
  }

  /** Once the room is used up, no pair gets in any more. */
  lemma {:induction false} FullStays(s: seq<Pair>, more: seq<Pair>, room: nat)
    requires |FirstPairs(s, room)| >= room
    ensures FirstPairs(s + more, room) == FirstPairs(s, room)
  {
    if more == [] {
      assert s + more == s;
    } else {
      var n := |more| - 1;
      FullStays(s, more[..n], room);
      FirstSnoc(s + more[..n], more[n], room);
      assert s + more == s + more[..n] + [more[n]];
    }
  }

  /** All pairs are among the first exactly when their number fits. */
  lemma FirstAll(s: seq<Pair>, room: nat)
    ensures Elems(s) <= FirstPairs(s, room) <==> |Elems(s)| <= room
  {
    FirstBounds(s, room);
    var first := FirstPairs(s, room);
    if |Elems(s)| <= room && |first| >= room { SubsetEqual(first, Elems(s)); }
    if Elems(s) <= first { assert first == Elems(s); }
  }

  lemma SubsetEqual(a: set<Pair>, b: set<Pair>)
    requires a <= b && |a| >= |b|
    ensures a == b
  {
    assert b == a + (b - a);
    assert |b| == |a| + |b - a|;
  }

  /** More of the sequence is covered if and only if the old part was and the new pairs got in. */
  lemma FirstAppend(s: seq<Pair>, more: seq<Pair>, room: nat)
    ensures Elems(s + more) <= FirstPairs(s + more, room) <==>
            Elems(s) <= FirstPairs(s, room) && forall p | p in more :: p in FirstPairs(s + more, room)
  {
    FirstBounds(s, room);
    if |FirstPairs(s, room)| >= room {
      FullStays(s, more, room);
    } else {
      FirstGrows(s, more, room);
    }
    assert Elems(s + more) == Elems(s) + Elems(more);
  }

  lemma {:induction false} FirstGrows(s: seq<Pair>, more: seq<Pair>, room: nat)
    ensures FirstPairs(s, room) <= FirstPairs(s + more, room)
  {
    if more == [] {
      assert s + more == s;
    } else {
      var n := |more| - 1;
      FirstGrows(s, more[..n], room);
      FirstSnoc(s + more[..n], more[n], room);
      assert s + more == s + more[..n] + [more[n]];
    }
  }

  /** The pairs that need an entry. */
  ghost function NewPairs(table: Table, pairs: seq<Pair>): set<Pair> {
    Elems(pairs) - table.Keys
  }

  /** All of them get one exactly if there are 32 more bytes for each. */
  lemma NewPairsFit(table: Table, pairs: seq<Pair>, tu: int, used: nat, budget: nat)
    ensures var missing := NewPairs(table, pairs);
            (forall p | p in pairs :: p in Tracked(table, pairs, tu, Room(used, budget))) <==>
            missing == {} || used + 32 * |missing| <= budget
  {
    hide Tracked;
    NewPairsIn(table, pairs, tu, Room(used, budget));
  }

  lemma {:induction false} NewPairsIn(table: Table, pairs: seq<Pair>, tu: int, room: nat)
    ensures (forall p | p in pairs :: p in Tracked(table, pairs, tu, room)) <==> |NewPairs(table, pairs)| <= room
    decreases |pairs|
  {
    hide Tracked, Amount, NewPairs;
    TrackedUnfold(table, pairs, tu, room);
    if pairs == [] {
      assert NewPairs(table, []) == {} by { NewPairsNone(table); }
    } else {
      var p := pairs[0];
      var next, rest := table[p := Amount(table, p) + tu], if p in table then room else room - 1;
      NewPairsStep(table, pairs, next);
      if p in table || room > 0 {
        NewPairsIn(next, pairs[1..], tu, rest);
        TrackedGrows(next, pairs[1..], tu, rest);
        assert p in Tracked(next, pairs[1..], tu, rest).Keys;
        assert pairs == [p] + pairs[1..];
      }
    }
  }

  lemma NewPairsNone(table: Table)
    ensures NewPairs(table, []) == {}
  {
  }

  lemma NewPairsStep(table: Table, pairs: seq<Pair>, next: Table)
    requires pairs != [] && next.Keys == table.Keys + {pairs[0]}
    ensures |NewPairs(table, pairs)| == |NewPairs(next, pairs[1..])| + if pairs[0] in table then 0 else 1
  {
    var p := pairs[0];
    assert pairs == [p] + pairs[1..];
    assert NewPairs(next, pairs[1..]) == NewPairs(table, pairs) - {p};
    assert p !in table <==> p in NewPairs(table, pairs);
  }

  lemma TrackedUnfold(table: Table, pairs: seq<Pair>, tu: int, room: nat)
    ensures pairs == [] ==> Tracked(table, pairs, tu, room) == table
    ensures pairs != [] && pairs[0] !in table && room == 0 ==> Tracked(table, pairs, tu, room) == table
    ensures pairs != [] && (pairs[0] in table || room > 0) ==>
              var p := pairs[0];
              Tracked(table, pairs, tu, room) ==
              Tracked(table[p := Amount(table, p) + tu], pairs[1..], tu, if p in table then room else room - 1)
  {
  }

  lemma {:induction false} TrackedKeys(s: seq<Pair>, table: Table, pairs: seq<Pair>, tu: int, room: nat)
    requires table.Keys == FirstPairs(s, room) && |table| <= room
    ensures var after := Tracked(table, pairs, tu, room - |table|);
            after.Keys == FirstPairs(s + pairs, room) && |table| <= |after| <= room
    decreases |pairs|
  {
    hide FirstPairs, Tracked, Amount;
    TrackedUnfold(table, pairs, tu, room - |table|);
    assert |table| == |table.Keys|;
    if pairs == [] {
      assert s + pairs == s;
    } else if pairs[0] !in table && |table| == room {
      FullStays(s, pairs, room);
    } else {
      var p := pairs[0];
      FirstBumped(s, table, p, Amount(table, p) + tu, room);
      TrackedKeys(s + [p], table[p := Amount(table, p) + tu], pairs[1..], tu, room);
      assert s + [p] + pairs[1..] == s + pairs;
    }
  }

  lemma FirstBumped(s: seq<Pair>, table: Table, p: Pair, amount: int, room: nat)
    requires table.Keys == FirstPairs(s, room) && (p in table || |table| < room)
    ensures var next := table[p := amount];
            next.Keys == FirstPairs(s + [p], room) && |next| == if p in table then |table| else |table| + 1
  {
    hide FirstPairs;
    FirstSnoc(s, p, room);
    var next := table[p := amount];
    assert next.Keys == table.Keys + {p};
    assert |next| == |next.Keys| && |table| == |table.Keys|;
    if p in table { assert next.Keys == table.Keys; }
  }

  /** The table holds exactly the first pairs the passes over the transactions meet, as many as fit. */
  lemma {:induction false} FinalKeys(db: Database, twu: TwuMap, room: nat)
    ensures FinalTable(db, twu, room).Keys == FirstPairs(AllPairs(db, twu), room)
    ensures |FinalTable(db, twu, room)| <= room
  {
    hide Tracked, FirstPairs, PairsOf;
    if db == [] {
      FirstNone(room);
    } else {
      var n := |db| - 1;
      FinalKeys(db[..n], twu, room);
      TrackedKeys(AllPairs(db[..n], twu), FinalTable(db[..n], twu, room), PairsOf(twu, db[n]), db[n].tu, room);
    }
  }

  lemma FinalSnoc(db: Database, n: nat, twu: TwuMap, room: nat)
    requires n < |db|
    ensures var before := FinalTable(db[..n], twu, room);
            FinalTable(db[..n + 1], twu, room) == Tracked(before, PairsOf(twu, db[n]), db[n].tu, if |before| <= room then room - |before| else 0)
    ensures AllPairs(db[..n + 1], twu) == AllPairs(db[..n], twu) + PairsOf(twu, db[n])
  {
    hide Tracked, PairsOf;
    assert db[..n + 1][..n] == db[..n];
  }

  // ----- the amounts: a transaction counts for a pair if no pair it visits earlier is missing

  /** The pairs up to the first that is not in K. */
  ghost function Unbroken(pairs: seq<Pair>, K: set<Pair>): seq<Pair> {
    if pairs == [] || pairs[0] !in K then [] else [pairs[0]] + Unbroken(pairs[1..], K)
  }

  /** The summed utility of the transactions that reach p before they meet a pair outside K. */
  ghost function Recorded(db: Database, twu: TwuMap, K: set<Pair>, p: Pair): int {
    if db == [] then 0
    else
      var t := db[|db| - 1];
      Recorded(db[..|db| - 1], twu, K, p) + if p in Unbroken(PairsOf(twu, t), K) then t.tu else 0
  }

  lemma {:induction false} UnbrokenAll(pairs: seq<Pair>, K: set<Pair>)
    ensures forall p | p in Unbroken(pairs, K) :: p in pairs && p in K
    ensures (forall p | p in pairs :: p in K) ==> Unbroken(pairs, K) == pairs
  {
    if pairs != [] && pairs[0] in K {
      UnbrokenAll(pairs[1..], K);
      assert pairs == [pairs[0]] + pairs[1..];
    }
  }

  lemma {:induction false} TrackedGrows(table: Table, pairs: seq<Pair>, tu: int, room: nat)
    ensures table.Keys <= Tracked(table, pairs, tu, room).Keys
    decreases |pairs|
  {
    if pairs != [] && !(pairs[0] !in table && room == 0) {
      var p := pairs[0];
      TrackedGrows(table[p := Amount(table, p) + tu], pairs[1..], tu, if p in table then room else room - 1);
    }
  }

  /** What one transaction adds: its utility to every pair up to the first that did not get in. */
  lemma {:induction false} TrackedAmounts(table: Table, pairs: seq<Pair>, tu: int, room: nat, q: Pair)
    requires Distinct(pairs)
    ensures var after := Tracked(table, pairs, tu, room);
            q in after ==> after[q] == Amount(table, q) + if q in Unbroken(pairs, after.Keys) then tu else 0
    decreases |pairs|
  {
    var after := Tracked(table, pairs, tu, room);
    if pairs != [] && !(pairs[0] !in table && room == 0) {
      var p, rest := pairs[0], if pairs[0] in table then room else room - 1;
      var next := table[p := Amount(table, p) + tu];
      TrackedAmounts(next, pairs[1..], tu, rest, q);
      TrackedGrows(next, pairs[1..], tu, rest);
      assert p in after.Keys;
      UnbrokenAll(pairs[1..], after.Keys);
      assert p !in pairs[1..];
    }
  }

  lemma {:induction false} RecordedSame(db: Database, twu: TwuMap, K: set<Pair>, K': set<Pair>, q: Pair)
    requires K == K' || forall p | p in AllPairs(db, twu) :: p in K && p in K'
    ensures Recorded(db, twu, K, q) == Recorded(db, twu, K', q)
    ensures q !in AllPairs(db, twu) ==> Recorded(db, twu, K, q) == 0
  {
    if db != [] {
      var n := |db| - 1;
      RecordedSame(db[..n], twu, K, K', q);
      UnbrokenAll(PairsOf(twu, db[n]), K);
      UnbrokenAll(PairsOf(twu, db[n]), K');
    }
  }

  /** Every amount in the table, complete or not. */
  lemma {:induction false} FinalAmounts(db: Database, twu: TwuMap, room: nat, q: Pair)
    requires ValidDatabase(db)
    ensures var table := FinalTable(db, twu, room);
            q in table ==> table[q] == Recorded(db, twu, table.Keys, q)
  {
    hide ValidTransaction, PairsOf, Tracked, Unbroken, FirstPairs;
    if db != [] {
      var n := |db| - 1;
      var s, before, table := AllPairs(db[..n], twu), FinalTable(db[..n], twu, room), FinalTable(db, twu, room);
      ValidPrefix(db, n);
      FinalAmounts(db[..n], twu, room, q);
      FinalKeys(db[..n], twu, room);
      FinalKeys(db, twu, room);
      FirstBounds(s, room);
      PairsOfDistinct(twu, db[n]);
      TrackedAmounts(before, PairsOf(twu, db[n]), db[n].tu, room - |before|, q);
      FirstGrows(s, PairsOf(twu, db[n]), room);
      if |before.Keys| >= room { FullStays(s, PairsOf(twu, db[n]), room); }
      assert before.Keys == table.Keys || forall p | p in s :: p in Elems(s);
      RecordedSame(db[..n], twu, before.Keys, table.Keys, q);
    }
  }

  // ----- the pairs of a transaction

  /** A pair of the rows after i, or of row i from column j on. */
  ghost predicate Ahead(items: seq<ItemId>, i: nat, j: nat, p: Pair) {
    exists a, b :: 0 <= a < b < |items| && (a > i || (a == i && b >= j)) && p == PairOf(items[a], items[b])
  }

  lemma AheadStep(items: seq<ItemId>, i: nat, j: nat, p: Pair)
    requires i < j < |items|
    ensures Ahead(items, i, j, p) <==> Ahead(items, i, j + 1, p) || p == PairOf(items[i], items[j])
  {
    if Ahead(items, i, j, p) {
      var a, b :| 0 <= a < b < |items| && (a > i || (a == i && b >= j)) && p == PairOf(items[a], items[b]);
      if a == i && b == j { assert p == PairOf(items[i], items[j]); }
    }
    if Ahead(items, i, j + 1, p) {
      var a, b :| 0 <= a < b < |items| && (a > i || (a == i && b >= j + 1)) && p == PairOf(items[a], items[b]);
      assert a > i || (a == i && b >= j);
    }
  }

  lemma NothingAhead(items: seq<ItemId>, i: nat, j: nat, p: Pair)
    requires i >= |items|
    ensures !Ahead(items, i, j, p)
  {
  }

  lemma AheadRow(items: seq<ItemId>, i: nat, j: nat, p: Pair)
    requires i < |items| <= j
    ensures Ahead(items, i, j, p) <==> Ahead(items, i + 1, i + 2, p)
  {
    if Ahead(items, i, j, p) {
      var a, b :| 0 <= a < b < |items| && (a > i || (a == i && b >= j)) && p == PairOf(items[a], items[b]);
      assert a > i + 1 || (a == i + 1 && b >= i + 2);
    }
    if Ahead(items, i + 1, i + 2, p) {
      var a, b :| 0 <= a < b < |items| && (a > i + 1 || (a == i + 1 && b >= i + 2)) && p == PairOf(items[a], items[b]);
      assert a > i || (a == i && b >= j);
    }
  }

  lemma {:induction false} InPairsFrom(items: seq<ItemId>, i: nat, j: nat, p: Pair)
    requires i < j
    ensures p in PairsFrom(items, i, j) <==> Ahead(items, i, j, p)
    decreases |items| - i, |items| - j
  {
    hide Ahead, PairOf, PairsFrom;
    PairsNext(items, i, j);
    if i >= |items| {
      NothingAhead(items, i, j, p);
    } else if j >= |items| {
      InPairsFrom(items, i + 1, i + 2, p);
      AheadRow(items, i, j, p);
    } else {
      InPairsFrom(items, i, j + 1, p);
      AheadStep(items, i, j, p);
    }
  }

  lemma PairNotAhead(items: seq<ItemId>, i: nat, j: nat)
    requires Distinct(items) && i < j < |items|
    ensures !Ahead(items, i, j + 1, PairOf(items[i], items[j]))
  {
    forall a, b | 0 <= a < b < |items| && (a > i || (a == i && b >= j + 1))
      ensures PairOf(items[i], items[j]) != PairOf(items[a], items[b])
    {
      if a > i { assert items[a] != items[i] && items[b] != items[i]; }
      if a == i { assert items[b] != items[i] && items[b] != items[j]; }
    }
  }

  lemma {:induction false} PairsFromDistinct(items: seq<ItemId>, i: nat, j: nat)
    requires Distinct(items) && i < j
    ensures Distinct(PairsFrom(items, i, j))
    decreases |items| - i, |items| - j
  {
    hide Ahead, PairOf, PairsFrom;
    PairsNext(items, i, j);
    if i < |items| <= j {
      PairsFromDistinct(items, i + 1, i + 2);
    } else if i < |items| {
      PairsFromDistinct(items, i, j + 1);
      InPairsFrom(items, i, j + 1, PairOf(items[i], items[j]));
      PairNotAhead(items, i, j);
    }
  }

  lemma PairsOfDistinct(twu: TwuMap, t: Transaction)
    requires ValidTransaction(t)
    ensures Distinct(PairsOf(twu, t))
  {
    hide ValidTransaction;
    var f := Apply(twu, t);
    if f.Some? {
      FilteredIds(twu, t, f.value);
      PairsFromDistinct(ItemIds(f.value.items), 0, 1);
    }
  }

  lemma FilteredIds(twu: TwuMap, t: Transaction, f: FilteredTransaction)
    requires Filters(twu, t, f)
    ensures Distinct(ItemIds(f.items)) && f.tu == t.tu && ItemsOf(f.items) == ItemsOf(t.items) * twu.Keys
  {
    forall i, j | 0 <= i < j < |f.items| ensures f.items[i].item != f.items[j].item {
      assert Less(twu, f.items[i].item, f.items[j].item);
    }
  }

  /** They are the pairs of kept items it contains. */
  lemma InPairsOf(twu: TwuMap, t: Transaction, p: Pair)
    requires ValidTransaction(t)
    ensures p in PairsOf(twu, t) <==> p.0 < p.1 && {p.0, p.1} <= ItemsOf(t.items) * twu.Keys
  {
    hide ValidTransaction;
    var f := Apply(twu, t);
    if f.Some? {
      FilteredIds(twu, t, f.value);
      var items := ItemIds(f.value.items);
      ItemIdsElems(f.value.items);
      InPairsFrom(items, 0, 1, p);
      assert p.0 in items <==> p.0 in Elems(items);
      assert p.1 in items <==> p.1 in Elems(items);
      AnyTwo(items, p);
    }
  }

  lemma AnyTwo(items: seq<ItemId>, p: Pair)
    requires Distinct(items)
    ensures Ahead(items, 0, 1, p) <==> p.0 < p.1 && p.0 in items && p.1 in items
  {
    if p.0 < p.1 && p.0 in items && p.1 in items {
      var a :| 0 <= a < |items| && items[a] == p.0;
      var b :| 0 <= b < |items| && items[b] == p.1;
      if a < b {
        assert (a > 0 || (a == 0 && b >= 1)) && p == PairOf(items[a], items[b]);
      } else {
        assert (b > 0 || (b == 0 && a >= 1)) && p == PairOf(items[b], items[a]);
      }
    }
    if Ahead(items, 0, 1, p) {
      var a, b :| 0 <= a < b < |items| && (a > 0 || (a == 0 && b >= 1)) && p == PairOf(items[a], items[b]);
      assert items[a] != items[b];
    }
  }

  // ----- the complete table

  /** All co-occurring pairs of kept items. */
  ghost function CoPairs(db: Database, keep: ItemSet): set<Pair> {
    set x, y | x in keep && y in keep && Cooccur(db, keep, (x, y)) :: (x, y)
  }

  lemma {:induction false} AllPairsAre(db: Database, twu: TwuMap, p: Pair)
    requires ValidDatabase(db)
    ensures p in AllPairs(db, twu) <==> p in CoPairs(db, twu.Keys)
  {
    hide ValidTransaction, PairsOf;
    assert p in CoPairs(db, twu.Keys) <==> Cooccur(db, twu.Keys, p) by { assert p == (p.0, p.1); }
    if db != [] {
      var n := |db| - 1;
      ValidPrefix(db, n);
      assert p in CoPairs(db[..n], twu.Keys) <==> Cooccur(db[..n], twu.Keys, p) by { assert p == (p.0, p.1); }
      AllPairsAre(db[..n], twu, p);
      InPairsOf(twu, db[n], p);
      PrefixStep(db, n, {p.0, p.1}, {});
      assert db[..n + 1] == db;
    }
  }

  /** There is room for every pair the table will hold. */
  ghost predicate AllPairsFit(db: Database, keep: ItemSet, used: nat, budget: nat) {
    CoPairs(db, keep) == {} || used + 32 * |CoPairs(db, keep)| <= budget
  }

  lemma FitsRoom(db: Database, keep: ItemSet, used: nat, budget: nat)
    ensures AllPairsFit(db, keep, used, budget) <==> |CoPairs(db, keep)| <= Room(used, budget)
  {
  }

  /** All pairs get in exactly when there is room for all of them. */
  lemma AllIn(db: Database, twu: TwuMap, room: nat)
    requires ValidDatabase(db)
    ensures Elems(AllPairs(db, twu)) == CoPairs(db, twu.Keys)
    ensures Elems(AllPairs(db, twu)) <= FirstPairs(AllPairs(db, twu), room) <==> |CoPairs(db, twu.Keys)| <= room
  {
    hide AllPairs, CoPairs, FirstPairs;
    forall p ensures p in Elems(AllPairs(db, twu)) <==> p in CoPairs(db, twu.Keys) { AllPairsAre(db, twu, p); }
    assert Elems(AllPairs(db, twu)) == CoPairs(db, twu.Keys);
    FirstAll(AllPairs(db, twu), room);
  }

  /** The amount of a pair is at most its TWU, and equal to it if no pair is missing. */
  lemma {:induction false} RecordedTwu(db: Database, twu: TwuMap, K: set<Pair>, p: Pair)
    requires ValidDatabase(db) && p.0 < p.1 && {p.0, p.1} <= twu.Keys
    ensures 0 <= Recorded(db, twu, K, p) <= Twu(db, {p.0, p.1})
    ensures (forall q | q in AllPairs(db, twu) :: q in K) ==> Recorded(db, twu, K, p) == Twu(db, {p.0, p.1})
  {
    hide ValidTransaction, PairsOf;
    if db != [] {
      var n := |db| - 1;
      ValidPrefix(db, n);
      RecordedTwu(db[..n], twu, K, p);
      InPairsOf(twu, db[n], p);
      UnbrokenAll(PairsOf(twu, db[n]), K);
      TuNonNegative(db[n]);
    }
  }

  lemma TuNonNegative(t: Transaction)
    requires ValidTransaction(t)
    ensures t.tu >= 0
  {
    UtilityInNonNegative(t.items, ItemsOf(t.items));
  }

  /** With room for all pairs the table is complete. */
  lemma FinalComplete(db: Database, twu: TwuMap, room: nat)
    requires ValidDatabase(db) && |CoPairs(db, twu.Keys)| <= room
    ensures Complete(db, twu.Keys, FinalTable(db, twu, room))
  {
    hide FinalTable, ValidDatabase, FirstPairs, Recorded;
    var table := FinalTable(db, twu, room);
    AllIn(db, twu, room);
    FinalKeys(db, twu, room);
    FirstBounds(AllPairs(db, twu), room);
    assert table.Keys == CoPairs(db, twu.Keys);
    forall p ensures p in table <==> Cooccur(db, twu.Keys, p) { assert p == (p.0, p.1); }
    forall p | p in table ensures table[p] == Twu(db, {p.0, p.1}) {
      FinalAmounts(db, twu, room, p);
      assert Cooccur(db, twu.Keys, p);
      forall q | q in AllPairs(db, twu) ensures q in table.Keys { assert q in Elems(AllPairs(db, twu)); }
      RecordedTwu(db, twu, table.Keys, p);
    }
  }

  // ----- the table itself

  class Eucs {
    var inner: Table

    constructor ()
      ensures inner == map[]
    {
      inner := map[];
    }

    /** Adds one transaction. A refused request stops it; the pairs not reached then miss this
        transaction's utility. */
    method AddTransaction(items: seq<ItemId>, tu: int, guard: MemoryGuard) returns (ok: bool)
      modifies this, guard
      ensures inner == Tracked(old(inner), PairsFrom(items, 0, 1), tu, Room(old(guard.used), guard.budget))
      ensures ok <==> forall p | p in PairsFrom(items, 0, 1) :: p in inner
      ensures ok <==> var missing := NewPairs(old(inner), PairsFrom(items, 0, 1));
                      missing == {} || old(guard.used) + 32 * |missing| <= guard.budget
      ensures |inner| >= |old(inner)| && guard.used == old(guard.used) + 32 * (|inner| - |old(inner)|)
      ensures Room(guard.used, guard.budget) == Room(old(guard.used), guard.budget) - (|inner| - |old(inner)|)
    {
      hide Tracked, PairsFrom, Room, NewPairs, TrackedSoFar, Amount;
      ghost var before, used, all := inner, guard.used, PairsFrom(items, 0, 1);
      NewPairsFit(before, all, tu, used, guard.budget);
      ghost var done: seq<Pair> := [];
      TrackedStart(before, all, tu, used, guard.budget);
      for i := 0 to |items|
        invariant TrackedSoFar(before, inner, all, done, PairsFrom(items, i, i + 1), tu, used, guard.used, guard.budget)
      {
        for j := i + 1 to |items|
          invariant TrackedSoFar(before, inner, all, done, PairsFrom(items, i, j), tu, used, guard.used, guard.budget)
        {
          var p := PairOf(items[i], items[j]);
          TrackedTurn(before, inner, all, done, items, i, j, tu, used, guard.used, guard.budget);
          if p !in inner {
            var granted := guard.TryAlloc(ENTRY_BYTES);
            if !granted { return false; }
          }
          inner := inner[p := Amount(inner, p) + tu];
          done := done + [p];
        }
        PairsNext(items, i, |items|);
      }
      PairsNext(items, |items|, |items| + 1);
      TrackedDone(before, inner, all, done, tu, used, guard.used, guard.budget);
      ok := true;
    }

    predicate CanPrune(x: ItemId, y: ItemId, min: int)
      reads this
    {
      Cuts(inner, x, y, min)
    }
  }

  lemma PairsNext(items: seq<ItemId>, i: nat, j: nat)
    ensures i >= |items| ==> PairsFrom(items, i, j) == []
    ensures i < |items| <= j ==> PairsFrom(items, i, j) == PairsFrom(items, i + 1, i + 2)
    ensures i < |items| && j < |items| ==>
              PairsFrom(items, i, j) == [PairOf(items[i], items[j])] + PairsFrom(items, i, j + 1)
  {
  }

  /** In the middle of a transaction: what is left to do from here gives the same table as the whole
      did from the start. */
  ghost predicate TrackedSoFar(before: Table, now: Table, all: seq<Pair>, done: seq<Pair>, todo: seq<Pair>, tu: int,
                               used: nat, usedNow: nat, budget: nat) {
    && all == done + todo && (forall p | p in done :: p in now)
    && Tracked(before, all, tu, Room(used, budget)) == Tracked(now, todo, tu, Room(usedNow, budget))
    && |now| >= |before| && usedNow == used + ENTRY_BYTES * (|now| - |before|)
    && Room(usedNow, budget) == Room(used, budget) - (|now| - |before|)
  }

  lemma TrackedNext(before: Table, now: Table, all: seq<Pair>, done: seq<Pair>, todo: seq<Pair>, tu: int, used: nat,
                    usedNow: nat, budget: nat)
    requires TrackedSoFar(before, now, all, done, todo, tu, used, usedNow, budget) && todo != []
    ensures var p := todo[0];
            var next := now[p := Amount(now, p) + tu];
            && (p in now ==> TrackedSoFar(before, next, all, done + [p], todo[1..], tu, used, usedNow, budget))
            && (p !in now && usedNow + ENTRY_BYTES <= budget ==>
                  TrackedSoFar(before, next, all, done + [p], todo[1..], tu, used, usedNow + ENTRY_BYTES, budget))
            && (p !in now && usedNow + ENTRY_BYTES > budget ==> now == Tracked(before, all, tu, Room(used, budget)) && p in all)
  {
    hide Room, Tracked, Amount;
    RoomStep(usedNow, budget);
    TrackedUnfold(now, todo, tu, Room(usedNow, budget));
    var p := todo[0];
    assert todo == [p] + todo[1..];
    assert done + [p] + todo[1..] == all;
  }

  lemma TrackedStart(table: Table, all: seq<Pair>, tu: int, used: nat, budget: nat)
    ensures TrackedSoFar(table, table, all, [], all, tu, used, used, budget)
  {
    assert [] + all == all;
  }

  /** The same for the pair of positions i and j. */
  lemma TrackedTurn(before: Table, now: Table, all: seq<Pair>, done: seq<Pair>, items: seq<ItemId>, i: nat, j: nat, tu: int,
                    used: nat, usedNow: nat, budget: nat)
    requires i < |items| && j < |items|
    requires TrackedSoFar(before, now, all, done, PairsFrom(items, i, j), tu, used, usedNow, budget)
    ensures var p := PairOf(items[i], items[j]);
            var next, rest := now[p := Amount(now, p) + tu], PairsFrom(items, i, j + 1);
            && (p in now ==> TrackedSoFar(before, next, all, done + [p], rest, tu, used, usedNow, budget))
            && (p !in now && usedNow + ENTRY_BYTES <= budget ==>
                  TrackedSoFar(before, next, all, done + [p], rest, tu, used, usedNow + ENTRY_BYTES, budget))
            && (p !in now && usedNow + ENTRY_BYTES > budget ==> now == Tracked(before, all, tu, Room(used, budget)) && p in all)
    ensures |now| >= |before| && usedNow == used + 32 * (|now| - |before|)
    ensures Room(usedNow, budget) == Room(used, budget) - (|now| - |before|)
  {
    hide Room, Tracked, Amount, PairsFrom;
    PairsNext(items, i, j);
    var todo, rest := PairsFrom(items, i, j), PairsFrom(items, i, j + 1);
    assert todo[1..] == rest;
    TrackedNext(before, now, all, done, todo, tu, used, usedNow, budget);
  }

  lemma TrackedDone(before: Table, now: Table, all: seq<Pair>, done: seq<Pair>, tu: int, used: nat, usedNow: nat, budget: nat)
    requires TrackedSoFar(before, now, all, done, [], tu, used, usedNow, budget)
    ensures now == Tracked(before, all, tu, Room(used, budget)) && forall p | p in all :: p in now
    ensures |now| >= |before| && usedNow == used + 32 * (|now| - |before|)
    ensures Room(usedNow, budget) == Room(used, budget) - (|now| - |before|)
  {
    hide Room;
    assert done + [] == done;
  }
}
