/** TKO on a table the guard cut short (src/mining/algorithms/tko.rs, src/mining/components/eucs.rs): the
    search runs on with it, and only itemsets all of whose pairs are in the table are ever found. */
module TkoTables {
  import opened Huim
  import opened TwuFilter
  import opened EucsTable
  import opened TopK
  import opened Tko
  import opened TkoTermination
  import Fhm

  // ----- the invariant: every itemset a worker builds has all its pairs in the table

  predicate Tabled(c: Config, x: ItemId, y: ItemId) {
    PairOf(x, y) in c.table
  }

  ghost predicate AllTabled(c: Config, v: seq<ItemId>) {
    forall i, j | 0 <= i < j < |v| :: Tabled(c, v[i], v[j])
  }

  ghost predicate FrameTabled(c: Config, f: Frame) {
    AllTabled(c, f.prefix) && forall p, x | p in f.prefix && x in f.exts :: Tabled(c, p, x)
  }

  ghost predicate PhaseTabled(c: Config, f: Frame, phase: Phase) {
    phase.Expanding? && f.i < |f.exts| ==> forall y | y in phase.next :: Tabled(c, f.exts[f.i], y)
  }

  ghost predicate WorkerTabled(c: Config, w: Worker) {
    && (forall d | 0 <= d < |w.stack| :: FrameTabled(c, w.stack[d]))
    && (w.stack != [] ==> PhaseTabled(c, Top(w), w.phase))
  }

  ghost predicate StateTabled(c: Config, s: State) {
    && (forall n | 0 <= n < |s.workers| :: WorkerTabled(c, s.workers[n]))
    && (forall x | x in s.offered :: AllTabled(c, x.itemset))
  }

  lemma CurrentTabled(c: Config, f: Frame)
    requires FrameTabled(c, f) && f.i < |f.exts|
    ensures AllTabled(c, f.prefix + [f.exts[f.i]])
  {
    var v := f.prefix + [f.exts[f.i]];
    forall i, j | 0 <= i < j < |v| ensures Tabled(c, v[i], v[j]) {
      assert v[i] in f.prefix;
      if j == |f.prefix| { assert v[j] in f.exts; }
    }
  }

  lemma NextTabled(c: Config, f: Frame, j: nat, next: seq<ItemId>)
    requires FrameTabled(c, f) && f.i < |f.exts| && f.i < j <= |f.exts|
    requires forall y | y in next :: Tabled(c, f.exts[f.i], y) && y in f.exts[f.i + 1..j]
    ensures FrameTabled(c, Frame(f.prefix + [f.exts[f.i]], next, 0, |next|))
  {
    CurrentTabled(c, f);
    forall p, y | p in f.prefix + [f.exts[f.i]] && y in next ensures Tabled(c, p, y) {
      assert y in f.exts;
      if p !in f.prefix { assert p == f.exts[f.i]; }
    }
  }

  lemma LocalTabled(c: Config, w: Worker, w': Worker, threshold: int)
    requires WorkerOk(c, w, threshold) && WorkerTabled(c, w) && LocalStep(c, w, w', threshold)
    ensures WorkerTabled(c, w')
  {
    hide Header, WorkerOk, FrameTabled, FrameOk;
    TopFacts(c, w, threshold);
    var f, n := Top(w), |w.stack| - 1;
    assert FrameTabled(c, f.(i := f.i + 1)) by { MovedTabled(c, f); }
    match w.phase
    case Idle =>
    case Loaded(_) =>
    case Reloading =>
    case Expanding(t, j, next) =>
      if j == |f.exts| && next != [] { NextTabled(c, f, j, next); }
  }

  lemma MovedTabled(c: Config, f: Frame)
    requires FrameTabled(c, f)
    ensures FrameTabled(c, f.(i := f.i + 1))
  {
  }

  lemma StepTabled(c: Config, s: State, s': State)
    requires ValidConfig(c) && Inv(c, s) && StateTabled(c, s) && Next(c, s, s')
    ensures StateTabled(c, s')
  {
    hide LocalStep, WorkerOk, WorkerTabled, Header, OfferedOnce, Settled, Justified, IsTopK, Exclusive, Pending,
         ValidConfig, PushPop, AllTabled;
    var n: nat :| n < |s.workers| && WorkerStep(c, s, n, s');
    var w := s.workers[n];
    if OfferStep(c, s, n, s') {
      OfferTabled(c, w, s.threshold);
      HeaderNames(c, Top(w).prefix, Top(w).exts[Top(w).i]);
    } else if RaiseStep(c, s, n, s') {
      PhaseOnly(c, w, Reloading);
    } else if StartStep(c, s, n, s') {
      var task :| task in s.todo && s' == Started(c, s, n, task);
      FirstTabled(c, task);
    } else {
      var w' :| LocalStep(c, w, w', s.threshold) && s' == s.(workers := s.workers[n := w']);
      LocalTabled(c, w, w', s.threshold);
    }
  }

  lemma OfferTabled(c: Config, w: Worker, threshold: int)
    requires WorkerTabled(c, w) && w.stack != [] && Top(w).i < |Top(w).exts|
    ensures WorkerTabled(c, w.(phase := Raising)) && AllTabled(c, Top(w).prefix + [Top(w).exts[Top(w).i]])
  {
    assert FrameTabled(c, w.stack[|w.stack| - 1]);
    CurrentTabled(c, Top(w));
  }

  lemma PhaseOnly(c: Config, w: Worker, phase: Phase)
    requires WorkerTabled(c, w) && !phase.Expanding?
    ensures WorkerTabled(c, w.(phase := phase))
  {
  }

  lemma FirstTabled(c: Config, task: nat)
    ensures WorkerTabled(c, Worker([Frame([], c.order, task, task + 1)], Idle))
  {
  }

  lemma {:induction false} RunTabled(c: Config, ss: seq<State>, n: nat)
    requires ValidConfig(c) && Execution(c, ss) && n < |ss|
    ensures StateTabled(c, ss[n])
  {
    hide Inv, Next, ValidConfig, StateTabled;
    if n == 0 {
      StartTabled(c, ss[0]);
    } else {
      RunTabled(c, ss, n - 1);
      RunInv(c, ss, n - 1);
      assert Next(c, ss[n - 1], ss[n]);
      StepTabled(c, ss[n - 1], ss[n]);
    }
  }

  lemma StartTabled(c: Config, s: State)
    requires Init(c, s)
    ensures StateTabled(c, s)
  {
  }

  /** In every schedule, at every moment, what the heap holds is a supported itemset with its utility,
      and every pair of its items is in the table. */
  lemma OnlyTabled(c: Config, ss: seq<State>, n: nat)
    requires ValidConfig(c) && Execution(c, ss) && n < |ss|
    ensures forall h | h in ss[n].heap :: h in AllCands(c) && AllTabled(c, h.itemset)
  {
    hide Init, Next, WorkerOk, Owned, ValidConfig, Exclusive, Spelled, Settled, Pending, WorkerTabled, AllTabled;
    RunInv(c, ss, n);
    RunTabled(c, ss, n);
  }

  // ----- what is lost stays lost

  lemma StepLost(c: Config, s: State, s': State, v: seq<ItemId>)
    requires ValidConfig(c) && Inv(c, s) && Next(c, s, s') && Spelled(c, v)
    requires !Pending(c, s, v) && CandOf(c, v) !in s.offered
    ensures !Pending(c, s', v) && CandOf(c, v) !in s'.offered
  {
    hide LocalStep, WorkerOk, Header, OfferedOnce, Settled, Justified, IsTopK, Exclusive, Pending, ValidConfig, PushPop,
         Spelled, PendingAt, Elsewhere, Dropped;
    var n: nat :| n < |s.workers| && WorkerStep(c, s, n, s');
    var w := s.workers[n];
    if OfferStep(c, s, n, s') {
      OfferPending(c, s, n, s', Current(w));
      HeaderNames(c, Top(w).prefix, Top(w).exts[Top(w).i]);
    } else if RaiseStep(c, s, n, s') {
      PendingSplit(c, s, n, v);
      PendingSplit(c, s', n, v);
      ElsewhereSame(c, s, s', n, v);
      RaisePending(w, v);
    } else if StartStep(c, s, n, s') {
      var task :| task in s.todo && s' == Started(c, s, n, task);
      StartPending(c, s, n, task, v);
    } else {
      var w' :| LocalStep(c, w, w', s.threshold) && s' == s.(workers := s.workers[n := w']);
      LocalPending(c, s, n, w', v);
    }
  }

  lemma {:induction false} LostStays(c: Config, ss: seq<State>, m: nat, n: nat, v: seq<ItemId>)
    requires ValidConfig(c) && Execution(c, ss) && m <= n < |ss| && Spelled(c, v)
    requires !Pending(c, ss[m], v) && CandOf(c, v) !in ss[m].offered
    ensures !Pending(c, ss[n], v) && CandOf(c, v) !in ss[n].offered
  {
    hide Inv, Next, ValidConfig, Spelled, Pending, CandOf;
    if m < n {
      LostStays(c, ss, m, n - 1, v);
      RunInv(c, ss, n - 1);
      assert Next(c, ss[n - 1], ss[n]);
      StepLost(c, ss[n - 1], ss[n], v);
    }
  }

  lemma StepOffered(c: Config, s: State, s': State)
    requires Next(c, s, s')
    ensures s.offered <= s'.offered
  {
    hide LocalStep, Header, PushPop;
  }

  lemma {:induction false} OfferedStays(c: Config, ss: seq<State>, m: nat, n: nat)
    requires Execution(c, ss) && m <= n < |ss|
    ensures ss[m].offered <= ss[n].offered
  {
    hide Next;
    if m < n {
      OfferedStays(c, ss, m, n - 1);
      assert Next(c, ss[n - 1], ss[n]);
      StepOffered(c, ss[n - 1], ss[n]);
    }
  }

  // ----- counting

  /** The supported itemsets. */
  ghost function SupportedSets(c: Config): set<ItemSet> {
    set X | X <= c.twu.Keys && X != {} && Supported(c.db, X)
  }

  /** Different members of a heap are different itemsets. */
  lemma {:induction false} HeapFits(c: Config, H: set<Cand>, S: set<ItemSet>)
    requires ValidConfig(c) && forall h | h in H :: h in AllCands(c) && Elems(h.itemset) in S
    ensures |H| <= |S|
    decreases H
  {
    hide ValidConfig, Supported, Utility;
    if H != {} {
      var h :| h in H;
      var X := Elems(h.itemset);
      forall g | g in H - {h} ensures Elems(g.itemset) in S - {X} {
        if Elems(g.itemset) == X { SortedUnique(c.twu, g.itemset, h.itemset); }
      }
      HeapFits(c, H - {h}, S - {X});
    }
  }

  /** A heap that misses some itemset has fewer members than there are itemsets. */
  lemma MissingOne(c: Config, H: set<Cand>, x: Cand)
    requires ValidConfig(c) && x in AllCands(c) && x !in H && forall h | h in H :: h in AllCands(c)
    ensures |H| < |SupportedSets(c)|
  {
    hide ValidConfig, Supported, Utility;
    var S, X := SupportedSets(c), Elems(x.itemset);
    assert x.itemset[0] in X;
    assert X in S;
    forall h | h in H ensures Elems(h.itemset) in S - {X} {
      assert h.itemset[0] in Elems(h.itemset);
      if Elems(h.itemset) == X { SortedUnique(c.twu, h.itemset, x.itemset); }
    }
    HeapFits(c, H, S - {X});
  }

  // ----- what a finished schedule holds

  /** No amount in the table is negative. */
  ghost predicate AmountsNonNegative(c: Config) {
    forall p | p in c.table :: c.table[p] >= 0
  }

  /** With room in the heap for every supported itemset: whatever the schedule, exactly the itemsets all
      of whose pairs are in the table are found, with whatever amounts. */
  lemma WideHeap(c: Config, ss: seq<State>)
    requires ValidConfig(c) && AmountsNonNegative(c) && Execution(c, ss) && Finished(ss[|ss| - 1]) && c.k >= |SupportedSets(c)|
    ensures forall x :: x in ss[|ss| - 1].heap <==> x in AllCands(c) && AllTabled(c, x.itemset)
  {
    hide Init, Next, WorkerOk, Owned, ValidConfig, Exclusive, Spelled, AllTabled, SupportedSets, AmountsNonNegative,
         Dropped;
    var s := ss[|ss| - 1];
    RunInv(c, ss, |ss| - 1);
    OnlyTabled(c, ss, |ss| - 1);
    forall v ensures !Pending(c, s, v) { }
    forall x | x in AllCands(c) && AllTabled(c, x.itemset) ensures x in s.heap {
      if x !in s.heap {
        MissingOne(c, s.heap, x);
        assert CandOf(c, x.itemset) == x && s.threshold == 0;
        TabledKept(c, x.itemset);
      }
    }
  }

  lemma TabledKept(c: Config, v: seq<ItemId>)
    requires ValidConfig(c) && AmountsNonNegative(c) && AllTabled(c, v)
    ensures !Dropped(c, v, 0)
  {
    hide Utility, ValidConfig;
    CoverNonNegative(c, v);
    forall x, y | x in v && y in v && x != y ensures !Cuts(c.table, x, y, 0) {
      var i :| 0 <= i < |v| && v[i] == x;
      var j :| 0 <= j < |v| && v[j] == y;
      if i < j { assert Tabled(c, v[i], v[j]); } else { assert Tabled(c, v[j], v[i]); }
    }
  }

  /** For any k: if every pair inside the k best has an amount no threshold passes, the table did no harm. */
  lemma SurvivingBest(c: Config, ss: seq<State>, F: set<Cand>)
    requires ValidConfig(c) && Execution(c, ss) && Finished(ss[|ss| - 1]) && IsTopK(F, AllCands(c), c.k)
    requires forall f, x, y | f in F && x in f.itemset && y in f.itemset && x != y :: !Cuts(c.table, x, y, Floor(F, c.k))
    ensures ss[|ss| - 1].heap == F
  {
    hide Init, Next, WorkerOk, Owned, ValidConfig, Exclusive, Spelled, Dropped, Cuts, CandLess;
    var s := ss[|ss| - 1];
    RunInv(c, ss, |ss| - 1);
    forall v ensures !Pending(c, s, v) { }
    if s.threshold > 0 { ThresholdBelowKthBest(c, ss, |ss| - 1, F); }
    forall g | g in F ensures g.utility >= 0 { CoverNonNegative(c, g.itemset); }
    forall f | f in F ensures f in s.offered {
      assert CandOf(c, f.itemset) == f;
      FloorKeeps(c, F, f, s.threshold);
    }
    assert IsTopK(F, s.offered, c.k);
    TopKUnique(s.heap, F, s.offered, c.k);
  }

  /** The least utility of a full heap. */
  ghost function Floor(F: set<Cand>, k: nat): int {
    if |F| == k && F != {} then Least(F).utility else 0
  }

  lemma FloorKeeps(c: Config, F: set<Cand>, f: Cand, threshold: int)
    requires f in F && f.utility == Utility(c.db, Elems(f.itemset)) >= 0
    requires forall g | g in F :: g.utility >= 0
    requires threshold <= 0 || (|F| == c.k && forall g | g in F :: g.utility >= threshold)
    requires forall x, y | x in f.itemset && y in f.itemset && x != y :: !Cuts(c.table, x, y, Floor(F, c.k))
    ensures !Dropped(c, f.itemset, threshold)
  {
    hide Utility;
    assert threshold <= Floor(F, c.k);
  }

  // ----- the table of a run

  /** The configuration of a run on this database with this room in the guard. */
  ghost predicate ConfigOf(c: Config, db: Database, used: nat, budget: nat) {
    && ValidConfig(c) && c.db == db && c.twu == TwuOf(db, 0)
    && c.table == FinalTable(db, c.twu, Room(used, budget))
  }

  ghost predicate FinishedRun(c: Config, ss: seq<State>) {
    Execution(c, ss) && Finished(ss[|ss| - 1])
  }

  ghost predicate ExactRun(c: Config, ss: seq<State>) {
    ss != [] && IsTopK(ss[|ss| - 1].heap, AllCands(c), c.k)
  }

  lemma ConfigExists(db: Database, used: nat, budget: nat, k: nat) returns (c: Config)
    requires ValidDatabase(db)
    ensures ConfigOf(c, db, used, budget) && c.k == k
  {
    hide TwuOf, FinalTable, Room;
    TwuOfIs(db, 0);
    var order := SpellSet(TwuOf(db, 0), TwuOf(db, 0).Keys);
    c := Config(db, TwuOf(db, 0), FinalTable(db, TwuOf(db, 0), Room(used, budget)), order, k);
  }

  ghost function Below(n: nat): (s: set<nat>)
    ensures forall i: nat :: i in s <==> i < n
  {
    if n == 0 then {} else Below(n - 1) + {n - 1}
  }

  lemma RunExists(c: Config) returns (ss: seq<State>)
    requires ValidConfig(c)
    ensures FinishedRun(c, ss)
  {
    hide ValidConfig;
    var s := State(Below(|c.order|), [Worker([], Idle)], {}, 0, false, iset{});
    assert Init(c, s);
    ss := Completes(c, [s]);
  }

  /** The amounts of a run's table. */
  lemma RunAmounts(c: Config, db: Database, used: nat, budget: nat)
    requires ConfigOf(c, db, used, budget)
    ensures AmountsNonNegative(c)
  {
    hide FinalTable, Recorded, FirstPairs, AllPairs, TwuOf, Room, ValidDatabase, Twu;
    var room := Room(used, budget);
    FinalKeys(db, c.twu, room);
    FirstBounds(AllPairs(db, c.twu), room);
    forall p | p in c.table ensures c.table[p] >= 0 {
      assert p in AllPairs(db, c.twu);
      AllPairsAre(db, c.twu, p);
      FinalAmounts(db, c.twu, room, p);
      RecordedTwu(db, c.twu, c.table.Keys, p);
    }
  }

  /** So with a wide enough heap the table of a run, however short, decides alone what is found: every
      schedule ends with exactly the itemsets all of whose pairs got in. */
  lemma ShortTableHeap(c: Config, db: Database, used: nat, budget: nat, ss: seq<State>)
    requires ConfigOf(c, db, used, budget) && FinishedRun(c, ss) && c.k >= |SupportedSets(c)|
    ensures ss != [] && forall x :: x in ss[|ss| - 1].heap <==> x in AllCands(c) && AllTabled(c, x.itemset)
  {
    hide ConfigOf, SupportedSets, Finished, AllTabled, AllCands;
    RunNonEmpty(c, ss);
    ConfigValid(c, db, used, budget);
    RunAmounts(c, db, used, budget);
    WideHeap(c, ss);
  }

  /** With room for all pairs the table is complete. */
  lemma RoomCompletes(c: Config, db: Database, used: nat, budget: nat)
    requires ConfigOf(c, db, used, budget) && AllPairsFit(db, PassingItems(db, 0), used, budget)
    ensures CompleteTable(c)
  {
    hide FinalTable, TwuOf, Room, ValidDatabase, CoPairs, PassingItems;
    TwuOfIs(db, 0);
    FitsRoom(db, PassingItems(db, 0), used, budget);
    FinalComplete(db, c.twu, Room(used, budget));
  }

  /** Without, some pair is a supported itemset that no schedule ever finds. */
  lemma SomePairLost(c: Config, db: Database, used: nat, budget: nat) returns (x: Cand)
    requires ConfigOf(c, db, used, budget) && !AllPairsFit(db, PassingItems(db, 0), used, budget)
    ensures x in AllCands(c) && !AllTabled(c, x.itemset) && |x.itemset| == 2
  {
    hide FinalTable, TwuOf, Room, ValidDatabase, CoPairs, PassingItems, Utility;
    TwuOfIs(db, 0);
    FitsRoom(db, PassingItems(db, 0), used, budget);
    var p := Fhm.MissingPair(db, Room(used, budget));
    assert Cooccur(db, c.twu.Keys, p) by { PairCooccurs(db, c.twu.Keys, p); }
    var v := EverySetSpelled(c, {p.0, p.1});
    TwoSpelled(c, v, p);
    x := CandOf(c, v);
  }

  lemma PairCooccurs(db: Database, keep: ItemSet, p: Pair)
    requires p in CoPairs(db, keep)
    ensures Cooccur(db, keep, p)
  {
    assert p == (p.0, p.1);
  }

  lemma TwoSpelled(c: Config, v: seq<ItemId>, p: Pair)
    requires Spelled(c, v) && Elems(v) == {p.0, p.1} && p.0 < p.1 && p !in c.table
    ensures |v| == 2 && !AllTabled(c, v)
  {
    assert forall i, j | 0 <= i < j < |v| :: v[i] != v[j] by {
      forall i, j | 0 <= i < j < |v| ensures v[i] != v[j] { SortedDiffer(c, v, i, j); }
    }
    DistinctCount(v);
    assert v[0] in Elems(v) && v[1] in Elems(v) && v[0] != v[1];
    assert PairOf(v[0], v[1]) == p;
    assert !Tabled(c, v[0], v[1]);
  }

  /** Too little room, and a heap wide enough to show it: no finished schedule holds the k best. */
  lemma NoScheduleExact(c: Config, db: Database, used: nat, budget: nat, ss: seq<State>)
    requires ConfigOf(c, db, used, budget) && !AllPairsFit(db, PassingItems(db, 0), used, budget)
    requires FinishedRun(c, ss) && c.k >= |SupportedSets(c)|
    ensures !ExactRun(c, ss)
  {
    hide ConfigOf, AllPairsFit, SupportedSets, Execution, Finished, AllTabled, PassingItems;
    RunNonEmpty(c, ss);
    var x := SomePairLost(c, db, used, budget);
    var heap := ss[|ss| - 1].heap;
    ConfigValid(c, db, used, budget);
    OnlyTabled(c, ss, |ss| - 1);
    MissingOne(c, heap, x);
  }

  lemma ConfigValid(c: Config, db: Database, used: nat, budget: nat)
    requires ConfigOf(c, db, used, budget)
    ensures ValidConfig(c)
  {
  }

  lemma RunNonEmpty(c: Config, ss: seq<State>)
    requires Execution(c, ss)
    ensures ss != []
  {
  }

  /** TKO is exact for every k and every schedule exactly when the guard has room for all pairs of items
      that occur together. */
  lemma ExactForEveryK(db: Database, used: nat, budget: nat)
    requires ValidDatabase(db)
    ensures (forall c, ss | ConfigOf(c, db, used, budget) && FinishedRun(c, ss) :: ExactRun(c, ss)) <==>
            AllPairsFit(db, PassingItems(db, 0), used, budget)
  {
    hide ConfigOf, AllPairsFit, SupportedSets, Execution, Finished, PassingItems, AllCands, CompleteTable;
    if AllPairsFit(db, PassingItems(db, 0), used, budget) {
      forall c, ss | ConfigOf(c, db, used, budget) && FinishedRun(c, ss) ensures ExactRun(c, ss) {
        ConfigValid(c, db, used, budget);
        RunNonEmpty(c, ss);
        RoomCompletes(c, db, used, budget);
        FinalHeap(c, ss);
      }
    } else {
      var c0 := ConfigExists(db, used, budget, 0);
      var c := ConfigExists(db, used, budget, |SupportedSets(c0)|);
      SameSupported(c0, c, db, used, budget);
      ConfigValid(c, db, used, budget);
      var ss := RunExists(c);
      NoScheduleExact(c, db, used, budget, ss);
    }
  }

  lemma SameSupported(c: Config, d: Config, db: Database, used: nat, budget: nat)
    requires ConfigOf(c, db, used, budget) && ConfigOf(d, db, used, budget)
    ensures SupportedSets(c) == SupportedSets(d)
  {
  }
}
