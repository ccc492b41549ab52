/** Two schedules of one TKO run that end with different heaps (src/mining/algorithms/tko.rs:196-203): the
    amount of a pair was cut short by a refused request, and whether it still passes depends on whether
    the threshold was raised before or after it was looked up. */
module TkoSchedule {
  import opened Huim
  import opened Options
  import opened TwuFilter
  import opened UtilityLists
  import opened EucsTable
  import opened TopK
  import opened Tko
  import opened TkoTermination
  import opened TkoTables

  // ----- the database: items 1 and 2 occur together twice, the second time with item 3

  function First(): Transaction {
    Transaction(0, 10, [ItemEntry(1, 1), ItemEntry(2, 9)])
  }

  function Second(): Transaction {
    Transaction(1, 10, [ItemEntry(1, 1), ItemEntry(2, 9), ItemEntry(3, 0)])
  }

  function Db(): Database {
    [First(), Second()]
  }

  function TwuMapOf(): TwuMap {
    map[1 := 20, 2 := 20, 3 := 10]
  }

  /** One entry fits: the pair of 1 and 2 from the first transaction. The second transaction stops at a
      pair of item 3, so its utility is missing. */
  function ShortTable(): Table {
    map[(1, 2) := 10]
  }

  function Short(): Config {
    Config(Db(), TwuMapOf(), ShortTable(), [3, 1, 2], 1)
  }

  lemma Contents(S: ItemSet)
    ensures ItemsOf(First().items) == {1, 2} && ItemsOf(Second().items) == {1, 2, 3}
    ensures UtilityIn(First().items, S) == UtilityIn(Second().items, S) == (if 1 in S then 1 else 0) + (if 2 in S then 9 else 0)
  {
    var es, fs := First().items, Second().items;
    assert es[0] in es && es[1] in es && fs[0] in fs && fs[1] in fs && fs[2] in fs;
    assert ItemsOf(es) == {1, 2} && ItemsOf(fs) == {1, 2, 3};
    assert es[..1] == [es[0]] && es[..1][..0] == [];
    assert UtilityIn(es[..1], S) == if 1 in S then 1 else 0;
    assert fs[..2] == es;
  }

  lemma Sums(X: ItemSet, S: ItemSet)
    ensures CoverSum(Db(), X, S) == (if X <= {1, 2} then UtilityIn(First().items, S) else 0) + (if X <= {1, 2, 3} then UtilityIn(Second().items, S) else 0)
    ensures Twu(Db(), X) == (if X <= {1, 2} then 10 else 0) + (if X <= {1, 2, 3} then 10 else 0)
    ensures Supported(Db(), X) <==> X <= {1, 2, 3}
  {
    Contents(S);
    hide UtilityIn, ItemsOf;
    var db := Db();
    assert db[..1] == [First()] && db[..1][..0] == [];
    assert CoverSum(db[..1], X, S) == if X <= {1, 2} then UtilityIn(First().items, S) else 0;
    assert Twu(db[..1], X) == if X <= {1, 2} then 10 else 0;
    if X <= {1, 2, 3} { assert X <= ItemsOf(db[1].items); }
  }

  lemma DbValid()
    ensures ValidDatabase(Db())
  {
    Contents({1, 2});
    Contents({1, 2, 3});
  }

  lemma TwuIs()
    ensures TwuOf(Db(), 0) == TwuMapOf() && IsTwuFilter(Db(), 0, TwuMapOf())
  {
    hide TwuOf, Twu, Supported, Db;
    forall x: ItemId ensures x in TwuMapOf() <==> Supported(Db(), {x}) && Twu(Db(), {x}) >= 0 {
      Sums({x}, {});
      assert {x} <= {1, 2, 3} <==> x == 1 || x == 2 || x == 3;
    }
    forall x | x in TwuMapOf() ensures TwuMapOf()[x] == Twu(Db(), {x}) {
      Sums({x}, {});
    }
    TwuOfIs(Db(), 0);
  }

  // ----- its table

  lemma FirstPairsOf()
    ensures PairsOf(TwuMapOf(), First()) == [(1, 2)]
  {
    hide PairsOf;
    DbValid();
    assert ValidTransaction(Db()[0]);
    var twu, t := TwuMapOf(), First();
    Contents({});
    PairsOfDistinct(twu, t);
    var ps := PairsOf(twu, t);
    forall p: Pair ensures p in ps <==> p == (1, 2) {
      InPairsOf(twu, t, p);
      assert p.0 < p.1 && {p.0, p.1} <= {1, 2} <==> p == (1, 2);
    }
    assert (1, 2) in ps;
    OnlyElement(ps, (1, 2));
  }

  lemma FirstTwo(ps: seq<Pair>)
    requires Distinct(ps)
    ensures |ps| > 1 ==> ps[0] != ps[1]
  {
  }

  lemma OnlyElement(ps: seq<Pair>, p: Pair)
    requires Distinct(ps) && p in ps && forall q: Pair | q in ps :: q == p
    ensures ps == [p]
  {
    FirstTwo(ps);
    forall k | 0 <= k < |ps| ensures ps[k] == p { assert ps[k] in ps; }
  }

  lemma SecondPairsOf()
    ensures var ps := PairsOf(TwuMapOf(), Second()); ps != [] && ps[0] != (1, 2)
  {
    hide Apply, ItemsOf, Filters, ValidTransaction, UtilityIn;
    DbValid();
    assert ValidTransaction(Db()[1]);
    var twu, t := TwuMapOf(), Second();
    Contents({});
    var f := Apply(twu, t);
    assert ItemsOf(t.items) * twu.Keys == {1, 2, 3};
    FilteredIds(twu, t, f.value);
    SortedIds(twu, t, f.value);
    var items := ItemIds(f.value.items);
    ItemIdsElems(f.value.items);
    assert Elems(items) == {1, 2, 3};
    DistinctCount(items);
    LeastFirst(items);
    PairsNext(items, 0, 1);
  }

  lemma SortedIds(twu: TwuMap, t: Transaction, f: FilteredTransaction)
    requires Filters(twu, t, f)
    ensures SortedItems(twu, ItemIds(f.items))
  {
    hide Less;
  }

  lemma LeastFirst(items: seq<ItemId>)
    requires SortedItems(TwuMapOf(), items) && Elems(items) == {1, 2, 3}
    ensures items[0] == 3
  {
    assert 3 in Elems(items);
    var k :| 0 <= k < |items| && items[k] == 3;
    if k > 0 {
      assert Less(TwuMapOf(), items[0], 3);
      assert items[0] in Elems(items);
    }
  }

  lemma TableIs()
    ensures FinalTable(Db(), TwuMapOf(), 1) == ShortTable()
  {
    hide PairsOf;
    var db, twu := Db(), TwuMapOf();
    assert db[..1] == [First()] && db[..1][..0] == [] && db[..0] == [] && db[..2] == db;
    FirstPairsOf();
    SecondPairsOf();
    FinalSnoc(db, 0, twu, 1);
    FinalSnoc(db, 1, twu, 1);
    TrackedUnfold(map[], [(1, 2)], 10, 1);
    TrackedUnfold(map[(1, 2) := 10], [], 10, 0);
    assert FinalTable(db[..1], twu, 1) == map[(1, 2) := 10];
    TrackedUnfold(map[(1, 2) := 10], PairsOf(twu, Second()), 10, 0);
  }

  lemma ShortIs()
    ensures ConfigOf(Short(), Db(), 0, 32)
  {
    DbValid();
    TwuIs();
    TableIs();
    hide IsTwuFilter, ValidDatabase, TwuOf, FinalTable;
    var order := Short().order;
    assert order[0] == 3 && order[1] == 1 && order[2] == 2;
    assert Elems(order) == {1, 2, 3};
  }

  // ----- the three lists the schedules meet

  lemma Lists()
    ensures var ul := Header(Short(), [], 1); ul.itemset == [1] && ul.sumIutils == 2 && ul.sumRutils == 18 && ul.len > 0
    ensures var ul := Header(Short(), [], 2); ul.itemset == [2] && ul.sumIutils == 18 && ul.sumRutils == 0 && ul.len > 0
    ensures var ul := Header(Short(), [1], 2); ul.itemset == [1, 2] && ul.sumIutils == 20 && ul.sumRutils == 0 && ul.len > 0
  {
    Afters();
    hide After, Header;
    OneList([], 1, {1}, {2});
    OneList([], 2, {2}, {});
    OneList([1], 2, {1, 2}, {});
  }

  lemma Afters()
    ensures After(TwuMapOf(), 1) == {2} && After(TwuMapOf(), 2) == {}
    ensures [] + [1] == [1] && [] + [2] == [2] && [1] + [2] == [1, 2]
    ensures Elems<ItemId>([1]) == {1} && Elems<ItemId>([2]) == {2} && Elems<ItemId>([1, 2]) == {1, 2}
  {
  }

  lemma OneList(prefix: seq<ItemId>, x: ItemId, X: ItemSet, R: ItemSet)
    requires Elems(prefix + [x]) == X <= {1, 2} && After(TwuMapOf(), x) == R
    ensures var ul := Header(Short(), prefix, x);
            && ul.itemset == prefix + [x] && ul.len > 0
            && ul.sumIutils == 2 * ((if 1 in X then 1 else 0) + (if 2 in X then 9 else 0))
            && ul.sumRutils == 2 * ((if 1 in R then 1 else 0) + (if 2 in R then 9 else 0))
  {
    hide UL, SumI, SumR, CoverSum, Supported, UtilityIn;
    ULSums(Db(), X, R);
    Sums(X, X);
    Sums(X, R);
    Contents(X);
    Contents(R);
  }

  // ----- steps of a single worker

  function One(todo: set<nat>, w: Worker, heap: set<Cand>, threshold: int, locked: bool, offered: iset<Cand>): State {
    State(todo, [w], heap, threshold, locked, offered)
  }

  lemma StartOne(c: Config, todo: set<nat>, task: nat, heap: set<Cand>, threshold: int, offered: iset<Cand>)
    requires task in todo
    ensures Next(c, One(todo, Worker([], Idle), heap, threshold, false, offered),
                 One(todo - {task}, Worker([Frame([], c.order, task, task + 1)], Idle), heap, threshold, false, offered))
  {
    var s := One(todo, Worker([], Idle), heap, threshold, false, offered);
    var s' := One(todo - {task}, Worker([Frame([], c.order, task, task + 1)], Idle), heap, threshold, false, offered);
    assert s' == Started(c, s, 0, task);
    assert StartStep(c, s, 0, s');
    assert WorkerStep(c, s, 0, s');
  }

  lemma LocalOne(c: Config, todo: set<nat>, w: Worker, w': Worker, heap: set<Cand>, threshold: int, offered: iset<Cand>)
    requires LocalStep(c, w, w', threshold)
    ensures Next(c, One(todo, w, heap, threshold, false, offered), One(todo, w', heap, threshold, false, offered))
  {
    hide LocalStep;
    var s, s' := One(todo, w, heap, threshold, false, offered), One(todo, w', heap, threshold, false, offered);
    assert s' == s.(workers := s.workers[0 := w']);
    assert WorkerStep(c, s, 0, s');
  }

  lemma OfferOne(c: Config, todo: set<nat>, w: Worker, heap: set<Cand>, threshold: int, offered: iset<Cand>, cand: Cand)
    requires w.stack != [] && w.phase.Loaded? && Top(w).i < |Top(w).exts|
    requires var ul := Header(c, Top(w).prefix, Top(w).exts[Top(w).i]);
             cand == Cand(ul.sumIutils, ul.itemset) && !ul.CanPrune(w.phase.t) && ul.IsHighUtility(w.phase.t)
    ensures Next(c, One(todo, w, heap, threshold, false, offered),
                 One(todo, w.(phase := Raising), PushPop(heap, cand, c.k), threshold, true, offered + iset{cand}))
  {
    hide Header, PushPop;
    var s := One(todo, w, heap, threshold, false, offered);
    var s' := One(todo, w.(phase := Raising), PushPop(heap, cand, c.k), threshold, true, offered + iset{cand});
    assert OfferStep(c, s, 0, s');
    assert WorkerStep(c, s, 0, s');
  }

  lemma RaiseOne(c: Config, todo: set<nat>, w: Worker, cand: Cand, offered: iset<Cand>)
    requires w.stack != [] && w.phase.Raising? && c.k == 1 && cand.utility > 0
    ensures Next(c, One(todo, w, {cand}, 0, true, offered), One(todo, w.(phase := Reloading), {cand}, cand.utility, false, offered))
  {
    var s, s' := One(todo, w, {cand}, 0, true, offered), One(todo, w.(phase := Reloading), {cand}, cand.utility, false, offered);
    assert Least({cand}) == cand;
    assert RaiseStep(c, s, 0, s');
    assert WorkerStep(c, s, 0, s');
  }

  lemma FirstOffer(cand: Cand)
    ensures PushPop({}, cand, 1) == {cand}
  {
    assert {} + {cand} == {cand};
  }

  // ----- two schedules

  /** The pair is looked up before the threshold passes its amount: it is found. */
  lemma EarlyLookup() returns (ss: seq<State>)
    ensures Execution(Short(), ss) && Cand(20, [1, 2]) in ss[|ss| - 1].offered
    ensures ss[0].workers != []
  {
    hide Header, LocalStep, Next, PushPop;
    var c, f := Short(), Frame([], [3, 1, 2], 1, 2);
    var one, both := Cand(2, [1]), Cand(20, [1, 2]);
    var g := Frame([1], [2], 0, 1);
    Lists();
    var none: iset<Cand> := iset{};
    var w1, w2 := Worker([f], Idle), Worker([f], Loaded(0));
    var w3, w4 := Worker([f], Raising), Worker([f], Reloading);
    var w5, w6 := Worker([f], Expanding(2, 2, [])), Worker([f], Expanding(2, 3, [2]));
    var w7, w8 := Worker([f.(i := 2), g], Idle), Worker([f.(i := 2), g], Loaded(2));
    StartOne(c, {0, 1, 2}, 1, {}, 0, none);
    EarlyLocals();
    LocalOne(c, {0, 2}, w1, w2, {}, 0, none);
    OfferOne(c, {0, 2}, w2, {}, 0, none, one);
    FirstOffer(one);
    RaiseOne(c, {0, 2}, w3, one, none + iset{one});
    LocalOne(c, {0, 2}, w4, w5, {one}, 2, none + iset{one});
    LocalOne(c, {0, 2}, w5, w6, {one}, 2, none + iset{one});
    LocalOne(c, {0, 2}, w6, w7, {one}, 2, none + iset{one});
    LocalOne(c, {0, 2}, w7, w8, {one}, 2, none + iset{one});
    OfferOne(c, {0, 2}, w8, {one}, 2, none + iset{one}, both);
    assert {0, 1, 2} - {1} == {0, 2};
    ss := [One({0, 1, 2}, Worker([], Idle), {}, 0, false, none),
           One({0, 2}, w1, {}, 0, false, none), One({0, 2}, w2, {}, 0, false, none), One({0, 2}, w3, {one}, 0, true, none + iset{one}),
           One({0, 2}, w4, {one}, 2, false, none + iset{one}), One({0, 2}, w5, {one}, 2, false, none + iset{one}),
           One({0, 2}, w6, {one}, 2, false, none + iset{one}), One({0, 2}, w7, {one}, 2, false, none + iset{one}),
           One({0, 2}, w8, {one}, 2, false, none + iset{one}),
           One({0, 2}, w8.(phase := Raising), PushPop({one}, both, 1), 2, true, none + iset{one} + iset{both})];
    assert Init(c, ss[0]);
  }

  lemma EarlyLocals()
    ensures var c, f, g := Short(), Frame([], [3, 1, 2], 1, 2), Frame([1], [2], 0, 1);
            && LocalStep(c, Worker([f], Idle), Worker([f], Loaded(0)), 0)
            && LocalStep(c, Worker([f], Reloading), Worker([f], Expanding(2, 2, [])), 2)
            && LocalStep(c, Worker([f], Expanding(2, 2, [])), Worker([f], Expanding(2, 3, [2])), 2)
            && LocalStep(c, Worker([f], Expanding(2, 3, [2])), Worker([f.(i := 2), g], Idle), 2)
            && LocalStep(c, Worker([f.(i := 2), g], Idle), Worker([f.(i := 2), g], Loaded(2)), 2)
  {
    hide Header;
    var c, f := Short(), Frame([], [3, 1, 2], 1, 2);
    assert [] + [2] == [2];
    assert [] + [1] == [1];
    var w := Worker([f], Expanding(2, 3, [2]));
    assert w.stack[..0] + [f.(i := 2)] == [f.(i := 2)];
    assert [f.(i := 2)] + [Frame([1], [2], 0, 1)] == [f.(i := 2), Frame([1], [2], 0, 1)];
  }

  /** Item 2 alone raises the threshold above the amount first: the pair is cut, and nothing else leads
      to it. */
  lemma LateLookup() returns (ss: seq<State>)
    ensures Execution(Short(), ss) && ss[0].workers != []
    ensures Cand(20, [1, 2]) !in ss[|ss| - 1].offered && !Pending(Short(), ss[|ss| - 1], [1, 2])
  {
    hide Header, LocalStep, Next, PushPop, Pending;
    var c, f, g := Short(), Frame([], [3, 1, 2], 2, 3), Frame([], [3, 1, 2], 1, 2);
    var two := Cand(18, [2]);
    Lists();
    var none: iset<Cand> := iset{};
    var some := none + iset{two};
    var w1, w2, w3, w4 := Worker([f], Idle), Worker([f], Loaded(0)), Worker([f], Raising), Worker([f], Reloading);
    var w5, w6 := Worker([f], Expanding(18, 3, [])), Worker([f.(i := 3)], Idle);
    var v1, v2 := Worker([g], Idle), Worker([g], Loaded(18));
    var v3, v4 := Worker([g], Expanding(18, 2, [])), Worker([g], Expanding(18, 3, []));
    StartOne(c, {0, 1, 2}, 2, {}, 0, none);
    LateLocals();
    LateCut();
    LateExpand();
    LocalOne(c, {0, 1}, w1, w2, {}, 0, none);
    OfferOne(c, {0, 1}, w2, {}, 0, none, two);
    FirstOffer(two);
    RaiseOne(c, {0, 1}, w3, two, some);
    LocalOne(c, {0, 1}, w4, w5, {two}, 18, some);
    LocalOne(c, {0, 1}, w5, w6, {two}, 18, some);
    LocalOne(c, {0, 1}, w6, Worker([], Idle), {two}, 18, some);
    StartOne(c, {0, 1}, 1, {two}, 18, some);
    LocalOne(c, {0}, v1, v2, {two}, 18, some);
    LocalOne(c, {0}, v2, v3, {two}, 18, some);
    LocalOne(c, {0}, v3, v4, {two}, 18, some);
    assert {0, 1, 2} - {2} == {0, 1} && {0, 1} - {1} == {0};
    ss := [One({0, 1, 2}, Worker([], Idle), {}, 0, false, none),
           One({0, 1}, w1, {}, 0, false, none), One({0, 1}, w2, {}, 0, false, none), One({0, 1}, w3, {two}, 0, true, some),
           One({0, 1}, w4, {two}, 18, false, some), One({0, 1}, w5, {two}, 18, false, some), One({0, 1}, w6, {two}, 18, false, some),
           One({0, 1}, Worker([], Idle), {two}, 18, false, some),
           One({0}, v1, {two}, 18, false, some), One({0}, v2, {two}, 18, false, some), One({0}, v3, {two}, 18, false, some),
           One({0}, v4, {two}, 18, false, some)];
    assert Init(c, ss[0]);
    CutOff(v4, {two}, some);
  }

  lemma LateLocals()
    ensures var c, f := Short(), Frame([], [3, 1, 2], 2, 3);
            && LocalStep(c, Worker([f], Idle), Worker([f], Loaded(0)), 0)
            && LocalStep(c, Worker([f], Reloading), Worker([f], Expanding(18, 3, [])), 18)
            && LocalStep(c, Worker([f], Expanding(18, 3, [])), Worker([f.(i := 3)], Idle), 18)
            && LocalStep(c, Worker([f.(i := 3)], Idle), Worker([], Idle), 18)
  {
    hide Header;
    var f := Frame([], [3, 1, 2], 2, 3);
    var w := Worker([f], Expanding(18, 3, []));
    assert w.stack[..0] + [f.(i := 3)] == [f.(i := 3)];
  }

  lemma LateCut()
    ensures var c, g := Short(), Frame([], [3, 1, 2], 1, 2);
            && LocalStep(c, Worker([g], Idle), Worker([g], Loaded(18)), 18)
            && LocalStep(c, Worker([g], Expanding(18, 2, [])), Worker([g], Expanding(18, 3, [])), 18)
  {
    hide Header;
  }

  lemma LateExpand()
    ensures var c, g := Short(), Frame([], [3, 1, 2], 1, 2);
            LocalStep(c, Worker([g], Loaded(18)), Worker([g], Expanding(18, 2, [])), 18)
  {
    hide Header;
    Lists();
  }

  lemma CutOff(w: Worker, heap: set<Cand>, offered: iset<Cand>)
    requires w == Worker([Frame([], [3, 1, 2], 1, 2)], Expanding(18, 3, []))
    ensures !Pending(Short(), One({0}, w, heap, 18, false, offered), [1, 2])
  {
    var s := One({0}, w, heap, 18, false, offered);
    var p: seq<ItemId> := [] + [3];
    assert p[0] == 3;
    assert !Under([], 3, s.workers[0].stack[0].exts[1..], [1, 2]);
    var f := Frame([], [3, 1, 2], 1, 2);
    assert [] + f.exts[3..] == [];
    DeeperNothing(f, [1, 2]);
  }

  // ----- and how they end

  /** The pair is the best itemset there is. */
  lemma PairIsBest(x: Cand)
    requires x in AllCands(Short())
    ensures x == Cand(20, [1, 2]) || CandLess(x, Cand(20, [1, 2]))
    ensures Cand(20, [1, 2]) in AllCands(Short())
  {
    var X, best: seq<ItemId> := Elems(x.itemset), [1, 2];
    PairSpelled();
    Sums(X, X);
    Contents(X);
    hide UtilityIn, CoverSum, Supported;
    assert x.itemset[0] in X;
    if X == {1, 2} { SortedUnique(Short().twu, x.itemset, best); }
    if 3 !in X && X != {1, 2} { assert !(1 in X && 2 in X); }
  }

  lemma PairSpelled()
    ensures Spelled(Short(), [1, 2]) && CandOf(Short(), [1, 2]) == Cand(20, [1, 2]) && Elems<ItemId>([1, 2]) == {1, 2}
  {
    var v: seq<ItemId> := [1, 2];
    assert Elems(v) == {1, 2};
    Sums({1, 2}, {1, 2});
    Contents({1, 2});
  }

  lemma EarlyRun() returns (ss: seq<State>)
    requires ValidConfig(Short())
    ensures FinishedRun(Short(), ss) && Cand(20, [1, 2]) in ss[|ss| - 1].offered
  {
    hide Execution, Finished, Short, ValidConfig;
    var early := EarlyLookup();
    RunNonEmpty(Short(), early);
    ss := Completes(Short(), early);
    OfferedStays(Short(), ss, |early| - 1, |ss| - 1);
  }

  lemma LateRun() returns (ss: seq<State>)
    requires ValidConfig(Short())
    ensures FinishedRun(Short(), ss) && Cand(20, [1, 2]) !in ss[|ss| - 1].offered
  {
    hide Execution, Finished, Short, ValidConfig, Spelled, Pending, CandOf;
    PairSpelled();
    var late := LateLookup();
    RunNonEmpty(Short(), late);
    ss := Completes(Short(), late);
    LostStays(Short(), ss, |late| - 1, |ss| - 1, [1, 2]);
  }

  /** The guard has room for one table entry, and the result of the same run depends on the schedule: one
      finished schedule holds the best itemset, the other does not. */
  lemma DependsOnSchedule() returns (ss: seq<State>, tt: seq<State>)
    ensures ConfigOf(Short(), Db(), 0, 32) && FinishedRun(Short(), ss) && FinishedRun(Short(), tt)
    ensures ExactRun(Short(), ss) && !ExactRun(Short(), tt) && ss[|ss| - 1].heap != tt[|tt| - 1].heap
  {
    hide ConfigOf, Short, Db, ExactRun, ValidConfig, Execution, Finished;
    ShortIs();
    ConfigValid(Short(), Db(), 0, 32);
    ss := EarlyRun();
    tt := LateRun();
    RunNonEmpty(Short(), ss);
    RunNonEmpty(Short(), tt);
    Ends(ss, tt);
  }

  lemma Ends(ss: seq<State>, tt: seq<State>)
    requires ValidConfig(Short()) && Execution(Short(), ss) && Execution(Short(), tt)
    requires Cand(20, [1, 2]) in ss[|ss| - 1].offered && Cand(20, [1, 2]) !in tt[|tt| - 1].offered
    ensures ExactRun(Short(), ss) && !ExactRun(Short(), tt) && ss[|ss| - 1].heap != tt[|tt| - 1].heap
  {
    hide ValidConfig, AllCands, CandLess, Exclusive, WorkerOk, Owned, Settled, Justified, Pending;
    var best := Cand(20, [1, 2]);
    RunInv(Short(), ss, |ss| - 1);
    RunInv(Short(), tt, |tt| - 1);
    var S, T := ss[|ss| - 1], tt[|tt| - 1];
    forall x | x in AllCands(Short()) ensures x == best || (CandLess(x, best) && !CandLess(best, x)) {
      PairIsBest(x);
      CandOrder(x, best, x);
    }
    assert best in AllCands(Short()) by { PairIsBest(best) by { assert best in S.offered; } }
    assert best in S.heap;
    assert S.heap == {best} by { SubsetSize({best}, S.heap); }
    assert best !in T.heap;
  }
}
