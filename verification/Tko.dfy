/** TKO: many workers search for the k best itemsets under one rising threshold
    (src/mining/algorithms/tko.rs). Every access to shared state is one step; workers interleave freely,
    and a read of the threshold may return any value it has had. */
module Tko {
  import opened Huim
  import opened TwuFilter
  import opened UtilityLists
  import opened EucsTable
  import opened Memory
  import opened TopK
  import opened PageLayout
  import opened Output
  import Fhm

  /** What all workers share and nobody changes; order holds the kept items in processing order. */
  datatype Config = Config(db: Database, twu: TwuMap, table: map<Pair, int>, order: seq<ItemId>, k: nat)

  /** Where a worker is inside one turn of its loop over extensions. */
  datatype Phase =
    | Idle
    | Loaded(t: int)
    | Raising
    | Reloading
    | Expanding(t: int, j: nat, next: seq<ItemId>)

  /** One level of a worker's recursion: the loop over exts[i..stop] below a prefix. A task is a level
      with the empty prefix and a single turn. */
  datatype Frame = Frame(prefix: seq<ItemId>, exts: seq<ItemId>, i: nat, stop: nat)

  datatype Worker = Worker(stack: seq<Frame>, phase: Phase)

  /** The shared state; offered records every update so far. */
  datatype State = State(todo: set<nat>, workers: seq<Worker>, heap: set<Cand>, threshold: int, locked: bool, offered: iset<Cand>)

  /** Any table will do: what the guard refused is missing from it. */
  ghost predicate ValidConfig(c: Config) {
    && ValidDatabase(c.db) && IsTwuFilter(c.db, 0, c.twu)
    && SortedItems(c.twu, c.order) && Elems(c.order) == c.twu.Keys
  }

  ghost predicate CompleteTable(c: Config) {
    Complete(c.db, c.twu.Keys, c.table)
  }

  // ----- steps

  /** The header of the list a worker holds for prefix + [x]; JoinUtilityLists builds exactly this. */
  ghost function Header(c: Config, prefix: seq<ItemId>, x: ItemId): UtilityList {
    var es := UL(c.db, Elems(prefix + [x]), After(c.twu, x));
    UtilityList(prefix + [x], SumI(es), SumR(es), |es|)
  }

  function Top(w: Worker): Frame
    requires w.stack != []
  {
    w.stack[|w.stack| - 1]
  }

  /** The worker is done with extension i. */
  function Advance(w: Worker): Worker
    requires w.stack != []
  {
    Worker(w.stack[..|w.stack| - 1] + [Top(w).(i := Top(w).i + 1)], Idle)
  }

  /** ... and starts on the next level. */
  function Descend(w: Worker, next: seq<ItemId>): Worker
    requires w.stack != [] && Top(w).i < |Top(w).exts|
  {
    Worker(Advance(w).stack + [Frame(Top(w).prefix + [Top(w).exts[Top(w).i]], next, 0, |next|)], Idle)
  }

  /** A step that touches no shared state but may read the threshold. */
  ghost predicate LocalStep(c: Config, w: Worker, w': Worker, threshold: int) {
    w.stack != [] &&
    var f := Top(w);
    match w.phase
    case Idle =>
      if f.i == f.stop then w' == Worker(w.stack[..|w.stack| - 1], Idle)
      else w'.stack == w.stack && w'.phase.Loaded? && w'.phase.t <= threshold
    case Loaded(t) =>
      && f.i < |f.exts|
      && var ul := Header(c, f.prefix, f.exts[f.i]);
      if ul.CanPrune(t) then w' == Advance(w)
      else !ul.IsHighUtility(t) && w' == w.(phase := Expanding(t, f.i + 1, []))
    case Raising => false
    case Reloading => w'.stack == w.stack && w'.phase.Expanding? && w'.phase == Expanding(w'.phase.t, f.i + 1, []) && w'.phase.t <= threshold
    case Expanding(t, j, next) =>
      && f.i < |f.exts|
      && if j < |f.exts| then
        w' == w.(phase := Expanding(t, j + 1, if Cuts(c.table, f.exts[f.i], f.exts[j], t) then next else next + [f.exts[j]]))
      else w' == if next == [] then Advance(w) else Descend(w, next)
  }

  /** Locks the heap and offers the itemset of the current extension. */
  ghost predicate OfferStep(c: Config, s: State, n: nat, s': State)
    requires n < |s.workers|
  {
    var w := s.workers[n];
    && w.stack != [] && w.phase.Loaded? && !s.locked
    && var f := Top(w);
    && f.i < |f.exts|
    && var ul := Header(c, f.prefix, f.exts[f.i]);
    var cand := Cand(ul.sumIutils, ul.itemset);
    && !ul.CanPrune(w.phase.t) && ul.IsHighUtility(w.phase.t)
    && s' == s.(heap := PushPop(s.heap, cand, c.k), offered := s.offered + iset{cand}, locked := true,
                workers := s.workers[n := w.(phase := Raising)])
  }

  /** Raises the threshold to the least utility of a full heap, and unlocks. */
  ghost predicate RaiseStep(c: Config, s: State, n: nat, s': State)
    requires n < |s.workers|
  {
    var w := s.workers[n];
    && w.stack != [] && w.phase.Raising?
    && s' == s.(threshold := Raised(s.heap, c.k, s.threshold), locked := false, workers := s.workers[n := w.(phase := Reloading)])
  }

  /** An idle worker takes any task that is left. */
  ghost predicate StartStep(c: Config, s: State, n: nat, s': State)
    requires n < |s.workers|
  {
    && s.workers[n].stack == []
    && exists task :: task in s.todo && s' == Started(c, s, n, task)
  }

  ghost function Started(c: Config, s: State, n: nat, task: nat): State
    requires n < |s.workers|
  {
    s.(todo := s.todo - {task}, workers := s.workers[n := Worker([Frame([], c.order, task, task + 1)], Idle)])
  }

  ghost predicate WorkerStep(c: Config, s: State, n: nat, s': State)
    requires n < |s.workers|
  {
    || (exists w' :: LocalStep(c, s.workers[n], w', s.threshold) && s' == s.(workers := s.workers[n := w']))
    || OfferStep(c, s, n, s') || RaiseStep(c, s, n, s') || StartStep(c, s, n, s')
  }

  ghost predicate Next(c: Config, s: State, s': State) {
    exists n :: 0 <= n < |s.workers| && WorkerStep(c, s, n, s')
  }

  ghost predicate Init(c: Config, s: State) {
    && (forall i: nat :: i in s.todo <==> i < |c.order|) && (forall n | 0 <= n < |s.workers| :: s.workers[n] == Worker([], Idle))
    && s.heap == {} && s.threshold == 0 && !s.locked && s.offered == iset{}
  }

  /** Any schedule of any number of workers. */
  ghost predicate Execution(c: Config, ss: seq<State>) {
    ss != [] && Init(c, ss[0]) && forall n | 0 <= n < |ss| - 1 :: Next(c, ss[n], ss[n + 1])
  }

  ghost predicate Finished(s: State) {
    s.todo == {} && forall n | 0 <= n < |s.workers| :: s.workers[n].stack == []
  }

  // ----- what must be found

  /** A supported itemset as the search spells it: its items in processing order. */
  ghost predicate Spelled(c: Config, v: seq<ItemId>) {
    v != [] && SortedItems(c.twu, v) && Elems(v) <= c.twu.Keys && Supported(c.db, Elems(v))
  }

  /** All supported itemsets with their utilities. */
  ghost function AllCands(c: Config): iset<Cand> {
    iset x: Cand | Spelled(c, x.itemset) && x.utility == Utility(c.db, Elems(x.itemset))
  }

  ghost function CandOf(c: Config, v: seq<ItemId>): Cand {
    Cand(Utility(c.db, Elems(v)), v)
  }

  /** Every non-empty supported itemset is spelled exactly once. */
  lemma EverySetSpelled(c: Config, X: ItemSet) returns (v: seq<ItemId>)
    requires ValidConfig(c) && X != {} && Supported(c.db, X)
    ensures Spelled(c, v) && Elems(v) == X
    ensures forall u: seq<ItemId> | Spelled(c, u) && Elems(u) == X :: u == v
  {
    forall x | x in X ensures x in c.twu {
      SupportedMonotone(c.db, {x}, X);
      CoverSumBelowTwu(c.db, {x}, {});
    }
    v := SpellSet(c.twu, X);
    forall u: seq<ItemId> | Spelled(c, u) && Elems(u) == X ensures u == v {
      SortedUnique(c.twu, u, v);
    }
  }

  lemma {:induction false} SpellSet(twu: TwuMap, X: ItemSet) returns (v: seq<ItemId>)
    ensures SortedItems(twu, v) && Elems(v) == X
    decreases |X|
  {
    if X == {} {
      v := [];
    } else {
      var x :| x in X;
      var u := SpellSet(twu, X - {x});
      assert x !in Elems(u);
      InsertItemSorted(twu, x, u);
      InsertItemElems(twu, x, u);
      v := InsertItem(twu, x, u);
    }
  }

  // ----- what is still to come

  /** v starts with prefix + [x] and goes on with items of later. */
  ghost predicate Under(prefix: seq<ItemId>, x: ItemId, later: seq<ItemId>, v: seq<ItemId>) {
    prefix + [x] <= v && forall m | |prefix| < m < |v| :: v[m] in later
  }

  ghost predicate FromBranches(f: Frame, start: nat, v: seq<ItemId>) {
    exists m :: start <= m < f.stop && m < |f.exts| && Under(f.prefix, f.exts[m], f.exts[m + 1..], v)
  }

  /** Proper extensions of the current itemset by items of later. */
  ghost predicate Deeper(f: Frame, later: seq<ItemId>, v: seq<ItemId>) {
    f.i < |f.exts| && |v| > |f.prefix| + 1 && Under(f.prefix, f.exts[f.i], later, v)
  }

  ghost predicate TopPending(f: Frame, phase: Phase, v: seq<ItemId>) {
    match phase
    case Idle => FromBranches(f, f.i, v)
    case Loaded(_) => FromBranches(f, f.i, v)
    case Raising => FromBranches(f, f.i + 1, v) || (f.i < |f.exts| && Deeper(f, f.exts[f.i + 1..], v))
    case Reloading => FromBranches(f, f.i + 1, v) || (f.i < |f.exts| && Deeper(f, f.exts[f.i + 1..], v))
    case Expanding(_, j, next) => FromBranches(f, f.i + 1, v) || (j <= |f.exts| && Deeper(f, next + f.exts[j..], v))
  }

  ghost predicate BelowPending(stack: seq<Frame>, v: seq<ItemId>) {
    exists d :: 0 <= d < |stack| - 1 && FromBranches(stack[d], stack[d].i, v)
  }

  ghost predicate PendingAt(w: Worker, v: seq<ItemId>) {
    w.stack != [] && (TopPending(Top(w), w.phase, v) || BelowPending(w.stack, v))
  }

  ghost predicate Pending(c: Config, s: State, v: seq<ItemId>) {
    || (exists task :: task in s.todo && task < |c.order| && Under([], c.order[task], c.order[task + 1..], v))
    || (exists n :: 0 <= n < |s.workers| && PendingAt(s.workers[n], v))
  }

  // ----- well-formed workers

  ghost predicate FrameOk(c: Config, f: Frame) {
    && f.i <= f.stop <= |f.exts|
    && SortedItems(c.twu, f.prefix) && SortedItems(c.twu, f.exts)
    && Elems(f.prefix) <= c.twu.Keys && Elems(f.exts) <= c.twu.Keys
    && (forall p, x | p in f.prefix && x in f.exts :: Less(c.twu, p, x))
  }

  /** The levels above d work inside the extension that level d took last. */
  ghost predicate Nested(stack: seq<Frame>, d: nat, e: nat)
    requires d < e < |stack|
  {
    var f := stack[d];
    1 <= f.i <= |f.exts| && f.prefix + [f.exts[f.i - 1]] <= stack[e].prefix
  }

  ghost predicate WorkerOk(c: Config, w: Worker, threshold: int) {
    && (w.stack == [] ==> w.phase.Idle?)
    && (forall d | 0 <= d < |w.stack| :: FrameOk(c, w.stack[d]))
    && (forall d, e | 0 <= d < e < |w.stack| :: Nested(w.stack, d, e))
    && (w.stack != [] ==>
          && w.stack[0].prefix == [] && w.stack[0].exts == c.order && w.stack[0].stop == Task(w) + 1 && Task(w) <= w.stack[0].i
          && (|w.stack| > 1 ==> w.stack[0].i == w.stack[0].stop)
          && PhaseOk(c, Top(w), w.phase, threshold))
  }

  ghost function Task(w: Worker): nat
    requires w.stack != []
  {
    if w.stack[0].stop == 0 then 0 else w.stack[0].stop - 1
  }

  ghost predicate PhaseOk(c: Config, f: Frame, phase: Phase, threshold: int) {
    match phase
    case Idle => true
    case Loaded(t) => f.i < f.stop && t <= threshold
    case Raising => f.i < f.stop
    case Reloading => f.i < f.stop
    case Expanding(t, j, next) =>
      && f.i < f.stop && f.i < j <= |f.exts| && t <= threshold && SortedItems(c.twu, next)
      && (forall y | y in next :: y in f.exts[f.i + 1..j])
  }

  // ----- what pruning may discard

  /** The remaining-utility bound at threshold t: nothing in the pruned branch reaches t. */
  lemma PrunedBelow(c: Config, f: Frame, t: int, v: seq<ItemId>)
    requires ValidConfig(c) && FrameOk(c, f) && f.i < |f.exts| && Header(c, f.prefix, f.exts[f.i]).CanPrune(t)
    requires Spelled(c, v) && Under(f.prefix, f.exts[f.i], f.exts[f.i + 1..], v)
    ensures Utility(c.db, Elems(v)) < t
  {
    hide UL, SumI, SumR, Utility;
    var x, P, later := f.exts[f.i], Elems(f.prefix), f.exts[f.i + 1..];
    NewItem(c, f);
    assert Elems(f.prefix + [x]) == P + {x};
    forall y | y in later ensures y in After(c.twu, x) {
      var k :| 0 <= k < |later| && later[k] == y;
      assert f.exts[f.i + 1 + k] == y && y in Elems(f.exts);
    }
    UnderElems(f.prefix, x, later, v);
    Fhm.PrunedBranch(c.db, c.twu, t, Header(c, f.prefix, x), P, x, Elems(later), Elems(v));
  }

  lemma NewItem(c: Config, f: Frame)
    requires FrameOk(c, f) && f.i < |f.exts|
    ensures f.exts[f.i] !in f.prefix && Distinct(f.prefix + [f.exts[f.i]]) && SortedItems(c.twu, f.prefix + [f.exts[f.i]])
  {
    var x, s := f.exts[f.i], f.prefix + [f.exts[f.i]];
    assert x in f.exts;
    assert forall i | 0 <= i < |f.prefix| :: s[i] in f.prefix;
    forall i, j | 0 <= i < j < |s| ensures Less(c.twu, s[i], s[j]) && s[i] != s[j] {
      if j < |f.prefix| { assert Less(c.twu, f.prefix[i], f.prefix[j]); }
    }
  }

  lemma UnderElems(prefix: seq<ItemId>, x: ItemId, later: seq<ItemId>, v: seq<ItemId>)
    requires Under(prefix, x, later, v)
    ensures Elems(prefix) + {x} <= Elems(v) <= Elems(prefix) + {x} + Elems(later)
  {
    var p := prefix + [x];
    assert v[..|p|] == p;
    forall y | y in v ensures y in Elems(prefix) + {x} + Elems(later) {
      var m :| 0 <= m < |v| && v[m] == y;
      if m < |p| { assert p[m] == y; }
    }
    forall y | y in Elems(prefix) + {x} ensures y in v {
      assert y in p by { if y == x { assert p[|prefix|] == y; } }
      var m :| 0 <= m < |p| && p[m] == y;
      assert v[m] == y;
    }
  }

  /** What the search may lose at a threshold: an itemset that misses it, or one of whose pairs the table
      has with less or not at all. */
  ghost predicate Dropped(c: Config, v: seq<ItemId>, threshold: int) {
    || Utility(c.db, Elems(v)) < threshold
    || exists x, y :: x in v && y in v && x != y && Cuts(c.table, x, y, threshold)
  }

  lemma DroppedRises(c: Config, v: seq<ItemId>, low: int, high: int)
    requires low <= high
    ensures Utility(c.db, Elems(v)) < low ==> Dropped(c, v, high)
    ensures Dropped(c, v, low) ==> Dropped(c, v, high)
  {
    hide Utility;
    if Dropped(c, v, low) && Utility(c.db, Elems(v)) >= low {
      var x, y :| x in v && y in v && x != y && Cuts(c.table, x, y, low);
      assert Cuts(c.table, x, y, high);
    }
  }

  /** With a complete table only itemsets that miss the threshold are lost. */
  lemma CompleteDropsBelow(c: Config, v: seq<ItemId>, threshold: int)
    requires ValidConfig(c) && CompleteTable(c) && Spelled(c, v) && Dropped(c, v, threshold)
    ensures Utility(c.db, Elems(v)) < threshold
  {
    hide Utility, Cuts, Spelled, ValidConfig, CompleteTable;
    if Utility(c.db, Elems(v)) >= threshold {
      var x, y :| x in v && y in v && x != y && Cuts(c.table, x, y, threshold);
      CutBelow(c, x, y, threshold, v);
    }
  }

  /** A pair the complete table cuts at t occurs in no itemset that reaches t. */
  lemma CutBelow(c: Config, x: ItemId, y: ItemId, t: int, v: seq<ItemId>)
    requires ValidConfig(c) && CompleteTable(c) && Cuts(c.table, x, y, t) && Spelled(c, v) && x in v && y in v && x != y
    ensures Utility(c.db, Elems(v)) < t
  {
    var X := Elems(v);
    assert x in X && y in X;
    if Utility(c.db, X) >= t {
      CompleteKeepsHuis(c.db, t, c.twu.Keys, c.table, X);
    }
  }

  /** An itemset that is not offered misses the threshold read for it. */
  lemma NotOfferedBelow(c: Config, f: Frame, t: int)
    requires ValidConfig(c) && f.i < |f.exts| && !Header(c, f.prefix, f.exts[f.i]).CanPrune(t)
    requires !Header(c, f.prefix, f.exts[f.i]).IsHighUtility(t)
    ensures Utility(c.db, Elems(f.prefix + [f.exts[f.i]])) < t
  {
    ULSums(c.db, Elems(f.prefix + [f.exts[f.i]]), After(c.twu, f.exts[f.i]));
  }

  // ----- how pending work moves

  lemma SortedDiffer(c: Config, s: seq<ItemId>, a: nat, b: nat)
    requires SortedItems(c.twu, s) && a < |s| && b < |s| && a != b
    ensures s[a] != s[b]
  {
    if a < b { assert Less(c.twu, s[a], s[b]); } else { assert Less(c.twu, s[b], s[a]); }
  }

  /** Work below one extension of a level is not below any later one. */
  lemma NotFromLater(c: Config, f: Frame, a: nat, start: nat, v: seq<ItemId>)
    requires SortedItems(c.twu, f.exts) && a < start && a < |f.exts| && f.prefix + [f.exts[a]] <= v
    ensures !FromBranches(f, start, v)
  {
    var p := f.prefix + [f.exts[a]];
    assert v[|f.prefix|] == p[|f.prefix|];
    forall m | start <= m < |f.exts| ensures !Under(f.prefix, f.exts[m], f.exts[m + 1..], v) {
      SortedDiffer(c, f.exts, a, m);
      var q := f.prefix + [f.exts[m]];
      assert q[|f.prefix|] == f.exts[m];
    }
  }

  lemma NextBranch(f: Frame, v: seq<ItemId>)
    requires f.i < f.stop <= |f.exts|
    ensures FromBranches(f, f.i, v) <==> FromBranches(f, f.i + 1, v) || Under(f.prefix, f.exts[f.i], f.exts[f.i + 1..], v)
  {
    if FromBranches(f, f.i, v) {
      var m :| f.i <= m < f.stop && m < |f.exts| && Under(f.prefix, f.exts[m], f.exts[m + 1..], v);
      if m != f.i { assert f.i + 1 <= m; }
    }
    if FromBranches(f, f.i + 1, v) {
      var m :| f.i + 1 <= m < f.stop && m < |f.exts| && Under(f.prefix, f.exts[m], f.exts[m + 1..], v);
      assert f.i <= m;
    }
  }

  /** The current itemset itself, or a proper extension. */
  lemma UnderSplit(f: Frame, later: seq<ItemId>, v: seq<ItemId>)
    requires f.i < |f.exts|
    ensures Under(f.prefix, f.exts[f.i], later, v) <==> v == f.prefix + [f.exts[f.i]] || Deeper(f, later, v)
  {
    var p := f.prefix + [f.exts[f.i]];
    if p <= v && |v| == |p| { assert v == p; }
  }

  /** Skipping a cut extension loses only itemsets that contain the cut pair. */
  lemma DeeperSkip(f: Frame, j: nat, next: seq<ItemId>, v: seq<ItemId>)
    requires f.i < j < |f.exts|
    ensures Deeper(f, next + f.exts[j + 1..], v) ==> Deeper(f, next + f.exts[j..], v)
    ensures Deeper(f, next + f.exts[j..], v) ==>
              Deeper(f, next + f.exts[j + 1..], v) || (f.exts[f.i] in v && f.exts[j] in v)
  {
    var a, b := next + f.exts[j..], next + f.exts[j + 1..];
    assert a == next + [f.exts[j]] + f.exts[j + 1..];
    assert forall y :: y in a <==> y in b || y == f.exts[j];
    if Deeper(f, a, v) {
      var p := f.prefix + [f.exts[f.i]];
      assert v[|f.prefix|] == p[|f.prefix|];
    }
  }

  lemma DeeperAdd(f: Frame, j: nat, next: seq<ItemId>)
    requires j < |f.exts|
    ensures next + [f.exts[j]] + f.exts[j + 1..] == next + f.exts[j..]
  {
  }

  lemma DeeperNothing(f: Frame, v: seq<ItemId>)
    ensures !Deeper(f, [], v)
  {
    var none: seq<ItemId> := [];
    assert |f.prefix| + 1 < |v| ==> v[|f.prefix| + 1] !in none;
  }

  /** The proper extensions by items of next are the branches of the next level. */
  lemma DeeperIsLevel(c: Config, f: Frame, next: seq<ItemId>, v: seq<ItemId>)
    requires f.i < |f.exts| && SortedItems(c.twu, next) && SortedItems(c.twu, v)
    ensures var g := Frame(f.prefix + [f.exts[f.i]], next, 0, |next|); Deeper(f, next, v) <==> FromBranches(g, 0, v)
  {
    hide Deeper, FromBranches, SortedItems;
    if Deeper(f, next, v) { DeeperToLevel(c, f, next, v); }
    if FromBranches(Frame(f.prefix + [f.exts[f.i]], next, 0, |next|), 0, v) { LevelToDeeper(f, next, v); }
  }

  lemma DeeperToLevel(c: Config, f: Frame, next: seq<ItemId>, v: seq<ItemId>)
    requires f.i < |f.exts| && SortedItems(c.twu, next) && SortedItems(c.twu, v) && Deeper(f, next, v)
    ensures FromBranches(Frame(f.prefix + [f.exts[f.i]], next, 0, |next|), 0, v)
  {
    hide Less;
    var p := f.prefix + [f.exts[f.i]];
    assert v[|p|] in next;
    var a :| 0 <= a < |next| && next[a] == v[|p|];
    forall m | |p| < m < |v| ensures v[m] in next[a + 1..] {
      assert v[m] in next;
      var b :| 0 <= b < |next| && next[b] == v[m];
      assert Less(c.twu, v[|p|], v[m]);
      LaterPosition(c, next, a, b);
      assert next[a + 1..][b - a - 1] == v[m];
    }
    assert v[..|p| + 1] == p + [next[a]];
    assert Under(p, next[a], next[a + 1..], v);
  }

  lemma UnderParent(p: seq<ItemId>, next: seq<ItemId>, a: nat, v: seq<ItemId>)
    requires a < |next| && Under(p, next[a], next[a + 1..], v)
    ensures p <= v && |v| > |p| && forall m | |p| <= m < |v| :: v[m] in next
  {
    var q := p + [next[a]];
    assert q <= v;
    assert v[..|p|] == q[..|p|] == p;
    assert v[|p|] == q[|p|] == next[a];
    forall m | |p| < m < |v| ensures v[m] in next { assert v[m] in next[a + 1..]; }
  }

  lemma LevelToDeeper(f: Frame, next: seq<ItemId>, v: seq<ItemId>)
    requires f.i < |f.exts| && FromBranches(Frame(f.prefix + [f.exts[f.i]], next, 0, |next|), 0, v)
    ensures Deeper(f, next, v)
  {
    var p := f.prefix + [f.exts[f.i]];
    var a :| 0 <= a < |next| && Under(p, next[a], next[a + 1..], v);
    UnderParent(p, next, a, v);
  }

  lemma LaterPosition(c: Config, s: seq<ItemId>, a: nat, b: nat)
    requires SortedItems(c.twu, s) && a < |s| && b < |s| && Less(c.twu, s[a], s[b])
    ensures a < b
  {
  }

  lemma BelowPushed(stack: seq<Frame>, g: Frame, v: seq<ItemId>)
    requires stack != []
    ensures BelowPending(stack + [g], v) <==> BelowPending(stack, v) || FromBranches(stack[|stack| - 1], stack[|stack| - 1].i, v)
  {
    var more, n := stack + [g], |stack|;
    if BelowPending(more, v) {
      var d :| 0 <= d < n && FromBranches(more[d], more[d].i, v);
      assert more[d] == stack[d];
      if d < n - 1 { assert FromBranches(stack[d], stack[d].i, v); }
    }
    if BelowPending(stack, v) {
      var d :| 0 <= d < n - 1 && FromBranches(stack[d], stack[d].i, v);
      assert more[d] == stack[d];
    }
    if FromBranches(stack[n - 1], stack[n - 1].i, v) { assert more[n - 1] == stack[n - 1]; }
  }

  /** Changing only the top level leaves what is pending below. */
  lemma BelowSame(stack: seq<Frame>, stack': seq<Frame>, v: seq<ItemId>)
    requires stack != [] && |stack'| == |stack| && stack'[..|stack| - 1] == stack[..|stack| - 1]
    ensures BelowPending(stack', v) <==> BelowPending(stack, v)
  {
    assert forall d | 0 <= d < |stack| - 1 :: stack'[d] == stack'[..|stack| - 1][d] && stack[d] == stack[..|stack| - 1][d];
    if BelowPending(stack, v) {
      var d :| 0 <= d < |stack| - 1 && FromBranches(stack[d], stack[d].i, v);
      assert FromBranches(stack'[d], stack'[d].i, v);
    }
    if BelowPending(stack', v) {
      var d :| 0 <= d < |stack| - 1 && FromBranches(stack'[d], stack'[d].i, v);
      assert FromBranches(stack[d], stack[d].i, v);
    }
  }

  /** What a local step may do to pending work: it creates none, and drops only what misses the
      threshold or contains a pair the table cuts at it. */
  ghost predicate Sound(c: Config, w: Worker, w': Worker, threshold: int, v: seq<ItemId>) {
    && (PendingAt(w', v) ==> PendingAt(w, v))
    && (PendingAt(w, v) ==> PendingAt(w', v) || Dropped(c, v, threshold))
  }

  lemma ReturnSound(c: Config, w: Worker, threshold: int, v: seq<ItemId>)
    requires w.stack != [] && w.phase.Idle? && Top(w).i == Top(w).stop
    ensures Sound(c, w, Worker(w.stack[..|w.stack| - 1], Idle), threshold, v)
  {
    var n := |w.stack| - 1;
    assert !FromBranches(Top(w), Top(w).i, v);
    if n > 0 {
      BelowPushed(w.stack[..n], w.stack[n], v);
      assert w.stack[..n] + [w.stack[n]] == w.stack;
    }
  }

  lemma AdvanceSound(c: Config, w: Worker, threshold: int, v: seq<ItemId>)
    requires ValidConfig(c) && WorkerOk(c, w, threshold) && w.stack != [] && Spelled(c, v)
    requires w.phase.Loaded? && Header(c, Top(w).prefix, Top(w).exts[Top(w).i]).CanPrune(w.phase.t)
    ensures Sound(c, w, Advance(w), threshold, v)
  {
    hide Utility, FrameOk, WorkerOk, BelowPending, ValidConfig, Header, Under, Spelled, Dropped;
    TopFacts(c, w, threshold);
    var f := Top(w);
    var g := f.(i := f.i + 1);
    BelowSame(w.stack, Advance(w).stack, v);
    NextBranch(f, v);
    assert FromBranches(g, g.i, v) <==> FromBranches(f, f.i + 1, v);
    if Under(f.prefix, f.exts[f.i], f.exts[f.i + 1..], v) { PrunedBelow(c, f, w.phase.t, v); }
    DroppedRises(c, v, w.phase.t, threshold);
  }

  lemma ExpandSound(c: Config, w: Worker, w': Worker, threshold: int, v: seq<ItemId>)
    requires ValidConfig(c) && WorkerOk(c, w, threshold) && w.stack != []
    requires w.phase.Loaded? && w' == w.(phase := Expanding(w.phase.t, Top(w).i + 1, []))
    requires !Header(c, Top(w).prefix, Top(w).exts[Top(w).i]).CanPrune(w.phase.t)
    requires !Header(c, Top(w).prefix, Top(w).exts[Top(w).i]).IsHighUtility(w.phase.t)
    ensures Sound(c, w, w', threshold, v)
  {
    hide FromBranches, Utility, FrameOk, WorkerOk, BelowPending, ValidConfig, Header, Under, Dropped;
    TopFacts(c, w, threshold);
    var f := Top(w);
    NextBranch(f, v);
    UnderSplit(f, f.exts[f.i + 1..], v);
    assert [] + f.exts[f.i + 1..] == f.exts[f.i + 1..];
    NotOfferedBelow(c, f, w.phase.t);
    DroppedRises(c, v, w.phase.t, threshold);
  }

  lemma ReloadSound(c: Config, w: Worker, w': Worker, threshold: int, v: seq<ItemId>)
    requires w.stack != [] && w.phase.Reloading? && w'.stack == w.stack && w'.phase.Expanding? && Top(w).i < |Top(w).exts|
    requires w'.phase.j == Top(w).i + 1 && w'.phase.next == []
    ensures Sound(c, w, w', threshold, v)
  {
    var f := Top(w);
    assert [] + f.exts[f.i + 1..] == f.exts[f.i + 1..];
  }

  lemma ScanSound(c: Config, w: Worker, w': Worker, threshold: int, v: seq<ItemId>)
    requires ValidConfig(c) && WorkerOk(c, w, threshold) && w.stack != [] && Spelled(c, v)
    requires w.phase.Expanding? && w.phase.j < |Top(w).exts| && LocalStep(c, w, w', threshold)
    ensures Sound(c, w, w', threshold, v)
  {
    hide Spelled, Utility, FrameOk, Cuts, WorkerOk, ValidConfig, BelowPending, FromBranches;
    TopFacts(c, w, threshold);
    var f := Top(w);
    var t, j, next := w.phase.t, w.phase.j, w.phase.next;
    if Cuts(c.table, f.exts[f.i], f.exts[j], t) {
      DeeperSkip(f, j, next, v);
      SortedDiffer(c, f.exts, f.i, j);
      DroppedRises(c, v, t, threshold);
    } else {
      DeeperAdd(f, j, next);
    }
  }

  lemma TopFacts(c: Config, w: Worker, threshold: int)
    requires WorkerOk(c, w, threshold) && w.stack != []
    ensures FrameOk(c, Top(w)) && PhaseOk(c, Top(w), w.phase, threshold) && SortedItems(c.twu, Top(w).exts)
    ensures Top(w).i <= Top(w).stop <= |Top(w).exts|
  {
  }

  lemma SamePhase(c: Config, w: Worker, w': Worker, threshold: int)
    requires WorkerOk(c, w, threshold) && w.stack != [] && w'.stack == w.stack && PhaseOk(c, Top(w'), w'.phase, threshold)
    ensures WorkerOk(c, w', threshold)
  {
  }

  lemma LevelSound(c: Config, w: Worker, w': Worker, threshold: int, v: seq<ItemId>)
    requires ValidConfig(c) && WorkerOk(c, w, threshold) && w.stack != [] && Spelled(c, v)
    requires w.phase.Expanding? && w.phase.j == |Top(w).exts| && LocalStep(c, w, w', threshold)
    ensures Sound(c, w, w', threshold, v)
  {
    hide FromBranches, Utility, FrameOk, Deeper, WorkerOk, BelowPending, ValidConfig, Cuts, Header;
    TopFacts(c, w, threshold);
    var f, next := Top(w), w.phase.next;
    var g := f.(i := f.i + 1);
    assert next + f.exts[|f.exts|..] == next;
    SameBranches(f, v);
    BelowSame(w.stack, Advance(w).stack, v);
    if next == [] {
      DeeperNothing(f, v);
    } else {
      DeeperIsLevel(c, f, next, v);
      BelowPushed(Advance(w).stack, Frame(f.prefix + [f.exts[f.i]], next, 0, |next|), v);
      assert Advance(w).stack[|w.stack| - 1] == g;
    }
  }

  lemma SameBranches(f: Frame, v: seq<ItemId>)
    ensures FromBranches(f.(i := f.i + 1), f.i + 1, v) <==> FromBranches(f, f.i + 1, v)
  {
  }

  lemma LocalSound(c: Config, w: Worker, w': Worker, threshold: int, v: seq<ItemId>)
    requires ValidConfig(c) && WorkerOk(c, w, threshold) && LocalStep(c, w, w', threshold) && Spelled(c, v)
    ensures Sound(c, w, w', threshold, v)
  {
    hide Sound, Header;
    match w.phase
    case Idle =>
      if Top(w).i == Top(w).stop {
        ReturnSound(c, w, threshold, v);
      } else {
        LoadSound(c, w, w', threshold, v);
      }
    case Loaded(t) =>
      if Header(c, Top(w).prefix, Top(w).exts[Top(w).i]).CanPrune(t) {
        AdvanceSound(c, w, threshold, v);
      } else {
        ExpandSound(c, w, w', threshold, v);
      }
    case Reloading => ReloadSound(c, w, w', threshold, v);
    case Expanding(_, j, _) =>
      if j < |Top(w).exts| {
        ScanSound(c, w, w', threshold, v);
      } else {
        LevelSound(c, w, w', threshold, v);
      }
  }

  lemma LoadSound(c: Config, w: Worker, w': Worker, threshold: int, v: seq<ItemId>)
    requires w.stack != [] && w.phase.Idle? && w'.stack == w.stack && w'.phase.Loaded?
    ensures Sound(c, w, w', threshold, v)
  {
  }

  // ----- workers stay well formed

  lemma AdvanceOk(c: Config, w: Worker, threshold: int)
    requires WorkerOk(c, w, threshold) && w.stack != [] && Top(w).i < Top(w).stop
    ensures WorkerOk(c, Advance(w), threshold)
  {
    var n, w' := |w.stack| - 1, Advance(w);
    var f := Top(w);
    assert FrameOk(c, f);
    forall d | 0 <= d <= n ensures FrameOk(c, w'.stack[d]) {
      if d < n { assert w'.stack[d] == w.stack[d]; }
    }
    forall d, e | 0 <= d < e <= n ensures Nested(w'.stack, d, e) {
      assert Nested(w.stack, d, e);
      assert w'.stack[d] == w.stack[d] && w'.stack[e].prefix == w.stack[e].prefix;
    }
  }

  lemma DescendOk(c: Config, w: Worker, threshold: int)
    requires WorkerOk(c, w, threshold) && w.stack != [] && w.phase.Expanding? && w.phase.j == |Top(w).exts|
    ensures WorkerOk(c, Descend(w, w.phase.next), threshold)
  {
    var f, next, n := Top(w), w.phase.next, |w.stack|;
    var base, w' := Advance(w), Descend(w, w.phase.next);
    AdvanceOk(c, w, threshold);
    NewLevelOk(c, f, w.phase.j, next);
    var p := f.prefix + [f.exts[f.i]];
    forall d | 0 <= d <= n ensures FrameOk(c, w'.stack[d]) {
      if d < n { assert w'.stack[d] == base.stack[d] && FrameOk(c, base.stack[d]); }
    }
    forall d, e | 0 <= d < e <= n ensures Nested(w'.stack, d, e) {
      DescendNested(base.stack, f, next, d, e);
    }
    assert w'.stack[0] == base.stack[0];
  }

  lemma DescendNested(stack: seq<Frame>, f: Frame, next: seq<ItemId>, d: nat, e: nat)
    requires stack != [] && f.i < |f.exts| && stack[|stack| - 1] == f.(i := f.i + 1) && d < e <= |stack|
    requires forall a, b | 0 <= a < b < |stack| :: Nested(stack, a, b)
    ensures Nested(stack + [Frame(f.prefix + [f.exts[f.i]], next, 0, |next|)], d, e)
  {
    var n := |stack|;
    if e < n {
      assert Nested(stack, d, e);
    } else if d < n - 1 {
      assert Nested(stack, d, n - 1);
      assert stack[n - 1].prefix <= f.prefix + [f.exts[f.i]];
    }
  }

  lemma NewLevelOk(c: Config, f: Frame, j: nat, next: seq<ItemId>)
    requires FrameOk(c, f) && f.i < f.stop && f.i < j <= |f.exts| && SortedItems(c.twu, next)
    requires forall y | y in next :: y in f.exts[f.i + 1..j]
    ensures FrameOk(c, Frame(f.prefix + [f.exts[f.i]], next, 0, |next|))
  {
    var x, p := f.exts[f.i], f.prefix + [f.exts[f.i]];
    NewItem(c, f);
    assert x in Elems(f.exts);
    assert Elems(p) == Elems(f.prefix) + {x};
    forall y | y in next ensures y in f.exts && Less(c.twu, x, y) {
      var k :| 0 <= k < |f.exts[f.i + 1..j]| && f.exts[f.i + 1..j][k] == y;
      assert f.exts[f.i + 1 + k] == y;
    }
    forall y | y in Elems(next) ensures y in c.twu { assert y in Elems(f.exts); }
    forall q, y | q in p && y in next ensures Less(c.twu, q, y) {
      if q != x { assert q in f.prefix by { assert q in Elems(p); } }
    }
  }

  lemma ScanOk(c: Config, w: Worker, w': Worker, threshold: int)
    requires WorkerOk(c, w, threshold) && w.stack != [] && w.phase.Expanding? && w.phase.j < |Top(w).exts|
    requires LocalStep(c, w, w', threshold)
    ensures WorkerOk(c, w', threshold)
  {
    hide FrameOk, Nested, Cuts, WorkerOk, SortedItems, PhaseOk;
    TopFacts(c, w, threshold);
    ScanPhase(c, Top(w), w.phase.t, w.phase.j, w.phase.next, threshold);
    SamePhase(c, w, w', threshold);
  }

  lemma ScanPhase(c: Config, f: Frame, t: int, j: nat, next: seq<ItemId>, threshold: int)
    requires SortedItems(c.twu, f.exts) && PhaseOk(c, f, Expanding(t, j, next), threshold) && j < |f.exts|
    ensures PhaseOk(c, f, Expanding(t, j + 1, next), threshold)
    ensures PhaseOk(c, f, Expanding(t, j + 1, next + [f.exts[j]]), threshold)
  {
    hide SortedItems;
    ScanSorted(c, f, j, next);
  }

  lemma ScanSorted(c: Config, f: Frame, j: nat, next: seq<ItemId>)
    requires SortedItems(c.twu, f.exts) && SortedItems(c.twu, next) && f.i < j < |f.exts|
    requires forall y | y in next :: y in f.exts[f.i + 1..j]
    ensures SortedItems(c.twu, next + [f.exts[j]])
    ensures forall y | y in next || y in next + [f.exts[j]] :: y in f.exts[f.i + 1..j + 1]
  {
    hide Less;
    assert f.exts[f.i + 1..j + 1] == f.exts[f.i + 1..j] + [f.exts[j]];
    forall a | 0 <= a < |next| ensures Less(c.twu, next[a], f.exts[j]) {
      assert next[a] in next;
      var k :| 0 <= k < |f.exts[f.i + 1..j]| && f.exts[f.i + 1..j][k] == next[a];
      assert Less(c.twu, f.exts[f.i + 1 + k], f.exts[j]);
    }
  }

  lemma PopOk(c: Config, w: Worker, threshold: int)
    requires WorkerOk(c, w, threshold) && w.stack != [] && w.phase.Idle?
    ensures WorkerOk(c, Worker(w.stack[..|w.stack| - 1], Idle), threshold)
  {
    var n, s := |w.stack| - 1, w.stack[..|w.stack| - 1];
    forall d, e | 0 <= d < e < n ensures Nested(s, d, e) {
      assert Nested(w.stack, d, e);
    }
  }

  lemma LocalOk(c: Config, w: Worker, w': Worker, threshold: int)
    requires ValidConfig(c) && WorkerOk(c, w, threshold) && LocalStep(c, w, w', threshold)
    ensures WorkerOk(c, w', threshold)
    ensures w'.stack != [] ==> Task(w') == Task(w)
  {
    hide Header, FrameOk, Nested, SortedItems, WorkerOk, ValidConfig;
    TopFacts(c, w, threshold);
    match w.phase
    case Idle =>
      if Top(w).i == Top(w).stop {
        PopOk(c, w, threshold);
      } else {
        SamePhase(c, w, w', threshold);
      }
    case Loaded(t) =>
      if Header(c, Top(w).prefix, Top(w).exts[Top(w).i]).CanPrune(t) {
        AdvanceOk(c, w, threshold);
      } else {
        NoneSorted(c);
        SamePhase(c, w, w', threshold);
      }
    case Reloading =>
      NoneSorted(c);
      SamePhase(c, w, w', threshold);
    case Expanding(_, j, next) =>
      if j < |Top(w).exts| {
        ScanOk(c, w, w', threshold);
      } else if next == [] {
        AdvanceOk(c, w, threshold);
      } else {
        DescendOk(c, w, threshold);
      }
  }

  lemma NoneSorted(c: Config)
    ensures SortedItems(c.twu, [])
  {
  }

  lemma RaisedOk(c: Config, w: Worker, low: int, high: int)
    requires WorkerOk(c, w, low) && low <= high
    ensures WorkerOk(c, w, high)
  {
  }

  // ----- the global invariant

  ghost predicate Busy(s: State, n: nat) {
    n < |s.workers| && s.workers[n].stack != []
  }

  /** Every task is waiting, with exactly one worker, or done. */
  ghost predicate Owned(c: Config, s: State) {
    && (forall i | i in s.todo :: i < |c.order|)
    && (forall n: nat | Busy(s, n) :: Task(s.workers[n]) !in s.todo && Task(s.workers[n]) < |c.order|)
    && (forall n: nat, m: nat | Busy(s, n) && Busy(s, m) && n != m :: Task(s.workers[n]) != Task(s.workers[m]))
  }

  /** Nothing offered is still pending, so nothing is ever offered twice. */
  ghost predicate OfferedOnce(c: Config, s: State) {
    forall x | x in s.offered :: x in AllCands(c) && !Pending(c, s, x.itemset)
  }

  /** Every itemset is offered, or dropped at the threshold, or still pending. */
  ghost predicate Settled(c: Config, s: State) {
    forall v | Spelled(c, v) :: CandOf(c, v) in s.offered || Dropped(c, v, s.threshold) || Pending(c, s, v)
  }

  /** The threshold is nothing, or reached by every member of a full heap. */
  ghost predicate Justified(s: State, k: nat) {
    s.threshold == 0 || (s.threshold > 0 && |s.heap| == k && forall h | h in s.heap :: h.utility >= s.threshold)
  }

  /** At most one worker is between its push and its unlock, and then the heap is locked. */
  ghost predicate Exclusive(s: State) {
    && (forall n | 0 <= n < |s.workers| && s.workers[n].phase.Raising? :: s.locked)
    && (forall n, m | 0 <= n < m < |s.workers| :: !(s.workers[n].phase.Raising? && s.workers[m].phase.Raising?))
    && (s.locked ==> exists n :: 0 <= n < |s.workers| && s.workers[n].phase.Raising?)
  }

  ghost predicate Inv(c: Config, s: State) {
    && Exclusive(s)
    && (forall n | 0 <= n < |s.workers| :: WorkerOk(c, s.workers[n], s.threshold))
    && Owned(c, s) && OfferedOnce(c, s) && Settled(c, s)
    && IsTopK(s.heap, s.offered, c.k) && Justified(s, c.k)
  }

  /** What a worker works on starts with its task's item. */
  lemma WorkerOwns(c: Config, w: Worker, threshold: int, v: seq<ItemId>)
    requires WorkerOk(c, w, threshold) && PendingAt(w, v) && Task(w) < |c.order|
    ensures v != [] && v[0] == c.order[Task(w)]
  {
    var d: nat, x: ItemId := OwnedLevel(w, v);
    var f := w.stack[d];
    assert FrameOk(c, f);
    if d > 0 {
      assert Nested(w.stack, 0, d);
      var p := w.stack[0].prefix + [w.stack[0].exts[w.stack[0].i - 1]];
      assert FrameOk(c, w.stack[0]);
      assert p[0] == c.order[Task(w)];
    }
  }

  /** Some level of the worker is responsible for v. */
  lemma OwnedLevel(w: Worker, v: seq<ItemId>) returns (d: nat, x: ItemId)
    requires PendingAt(w, v) && (w.phase.Idle? || Top(w).i < Top(w).stop)
    ensures d < |w.stack| && w.stack[d].prefix + [x] <= v
    ensures exists m :: w.stack[d].i <= m < |w.stack[d].exts| && x == w.stack[d].exts[m] && m < w.stack[d].stop
  {
    var n := |w.stack| - 1;
    var f := Top(w);
    if BelowPending(w.stack, v) {
      d :| 0 <= d < n && FromBranches(w.stack[d], w.stack[d].i, v);
      var m :| w.stack[d].i <= m < w.stack[d].stop && m < |w.stack[d].exts| && Under(w.stack[d].prefix, w.stack[d].exts[m], w.stack[d].exts[m + 1..], v);
      x := w.stack[d].exts[m];
    } else {
      d := n;
      if exists m :: f.i <= m < f.stop && m < |f.exts| && f.prefix + [f.exts[m]] <= v {
        var m :| f.i <= m < f.stop && m < |f.exts| && f.prefix + [f.exts[m]] <= v;
        x := f.exts[m];
      } else {
        x := f.exts[f.i];
      }
    }
  }

  ghost predicate TaskPending(c: Config, s: State, v: seq<ItemId>) {
    exists task :: task in s.todo && task < |c.order| && Under([], c.order[task], c.order[task + 1..], v)
  }

  /** Pending in the tasks that wait, or with a worker other than n. */
  ghost predicate Elsewhere(c: Config, s: State, n: nat, v: seq<ItemId>) {
    TaskPending(c, s, v) || exists m :: 0 <= m < |s.workers| && m != n && PendingAt(s.workers[m], v)
  }

  lemma PendingSplit(c: Config, s: State, n: nat, v: seq<ItemId>)
    requires n < |s.workers|
    ensures Pending(c, s, v) <==> Elsewhere(c, s, n, v) || PendingAt(s.workers[n], v)
  {
    hide PendingAt, Under;
  }

  /** A step of worker n leaves what others have pending. */
  lemma ElsewhereSame(c: Config, s: State, s': State, n: nat, v: seq<ItemId>)
    requires n < |s.workers| && s'.todo == s.todo && |s'.workers| == |s.workers|
    requires forall m | 0 <= m < |s.workers| && m != n :: s'.workers[m] == s.workers[m]
    ensures Elsewhere(c, s', n, v) <==> Elsewhere(c, s, n, v)
  {
    hide PendingAt, Under;
    if Elsewhere(c, s, n, v) && !TaskPending(c, s, v) {
      var m :| 0 <= m < |s.workers| && m != n && PendingAt(s.workers[m], v);
      assert PendingAt(s'.workers[m], v);
    }
    if Elsewhere(c, s', n, v) && !TaskPending(c, s', v) {
      var m :| 0 <= m < |s.workers| && m != n && PendingAt(s'.workers[m], v);
      assert PendingAt(s.workers[m], v);
    }
  }

  /** What starts with the item of worker n's task is pending nowhere else. */
  lemma OwnedHere(c: Config, s: State, n: nat, v: seq<ItemId>)
    requires ValidConfig(c) && Owned(c, s) && (forall m | 0 <= m < |s.workers| :: WorkerOk(c, s.workers[m], s.threshold))
    requires Busy(s, n) && v != [] && v[0] == c.order[Task(s.workers[n])]
    ensures !Elsewhere(c, s, n, v)
  {
    hide WorkerOk, PendingAt;
    var own := Task(s.workers[n]);
    forall task | task in s.todo ensures !Under([], c.order[task], c.order[task + 1..], v) {
      SortedDiffer(c, c.order, task, own);
      var p := [] + [c.order[task]];
      assert p[0] == c.order[task];
    }
    forall m: nat | m < |s.workers| && m != n ensures !PendingAt(s.workers[m], v) {
      if PendingAt(s.workers[m], v) {
        BusyPending(s, m, v);
        WorkerOwns(c, s.workers[m], s.threshold, v);
        SortedDiffer(c, c.order, Task(s.workers[m]), own);
      }
    }
  }

  lemma BusyPending(s: State, m: nat, v: seq<ItemId>)
    requires m < |s.workers| && PendingAt(s.workers[m], v)
    ensures Busy(s, m)
  {
  }

  // ----- local steps

  lemma LocalInv(c: Config, s: State, n: nat, w': Worker)
    requires ValidConfig(c) && Inv(c, s) && n < |s.workers| && LocalStep(c, s.workers[n], w', s.threshold)
    ensures Inv(c, s.(workers := s.workers[n := w']))
  {
    hide Dropped, WorkerOk, PendingAt, Pending, LocalStep, IsTopK, Spelled, AllCands, Elsewhere, ValidConfig;
    var w, s' := s.workers[n], s.(workers := s.workers[n := w']);
    LocalOk(c, w, w', s.threshold);
    LocalBusy(c, w, w', s.threshold);
    forall v | Spelled(c, v)
      ensures Pending(c, s', v) ==> Pending(c, s, v)
      ensures Pending(c, s, v) ==> Pending(c, s', v) || Dropped(c, v, s.threshold)
    {
      LocalPending(c, s, n, w', v);
    }
    OwnedKept(c, s, n, w');
    OfferedKept(c, s, s');
    ExclusiveKept(s, n, w');
    SameJustified(s, s', c.k);
  }

  lemma ExclusiveKept(s: State, n: nat, w': Worker)
    requires Exclusive(s) && n < |s.workers| && !s.workers[n].phase.Raising? && !w'.phase.Raising?
    ensures Exclusive(s.(workers := s.workers[n := w']))
  {
    var s' := s.(workers := s.workers[n := w']);
    if s.locked {
      var m :| 0 <= m < |s.workers| && s.workers[m].phase.Raising?;
      assert s'.workers[m].phase.Raising?;
    }
  }

  lemma LocalBusy(c: Config, w: Worker, w': Worker, threshold: int)
    requires LocalStep(c, w, w', threshold)
    ensures w.stack != [] && !w.phase.Raising? && !w'.phase.Raising?
  {
  }

  lemma LocalPending(c: Config, s: State, n: nat, w': Worker, v: seq<ItemId>)
    requires ValidConfig(c) && n < |s.workers| && WorkerOk(c, s.workers[n], s.threshold)
    requires LocalStep(c, s.workers[n], w', s.threshold) && Spelled(c, v)
    ensures var s' := s.(workers := s.workers[n := w']);
            && (Pending(c, s', v) ==> Pending(c, s, v))
            && (Pending(c, s, v) ==> Pending(c, s', v) || Dropped(c, v, s.threshold))
  {
    hide Dropped, WorkerOk, PendingAt, Pending, LocalStep, Spelled, Elsewhere, ValidConfig;
    var s' := s.(workers := s.workers[n := w']);
    LocalSound(c, s.workers[n], w', s.threshold, v);
    PendingSplit(c, s, n, v);
    PendingSplit(c, s', n, v);
    ElsewhereSame(c, s, s', n, v);
  }

  lemma OwnedKept(c: Config, s: State, n: nat, w': Worker)
    requires Owned(c, s) && n < |s.workers| && s.workers[n].stack != [] && (w'.stack != [] ==> Task(w') == Task(s.workers[n]))
    ensures Owned(c, s.(workers := s.workers[n := w']))
  {
    hide Task;
    var s' := s.(workers := s.workers[n := w']);
    assert Busy(s, n);
    forall m: nat | Busy(s', m) ensures Busy(s, m) && Task(s'.workers[m]) == Task(s.workers[m]) {
    }
  }

  lemma OfferedKept(c: Config, s: State, s': State)
    requires OfferedOnce(c, s) && s'.offered == s.offered
    requires forall v | Spelled(c, v) && Pending(c, s', v) :: Pending(c, s, v)
    ensures OfferedOnce(c, s')
  {
    hide Pending, Spelled;
  }

  // ----- offers

  /** The itemset about to be offered. */
  ghost function Current(w: Worker): seq<ItemId>
    requires w.stack != [] && Top(w).i < |Top(w).exts|
  {
    Top(w).prefix + [Top(w).exts[Top(w).i]]
  }

  lemma CurrentSpelled(c: Config, f: Frame, t: int)
    requires ValidConfig(c) && FrameOk(c, f) && f.i < |f.exts| && !Header(c, f.prefix, f.exts[f.i]).CanPrune(t)
    ensures var v := f.prefix + [f.exts[f.i]];
            Spelled(c, v) && Header(c, f.prefix, f.exts[f.i]).sumIutils == Utility(c.db, Elems(v))
  {
    var x := f.exts[f.i];
    NewItem(c, f);
    assert x in Elems(f.exts);
    assert Elems(f.prefix + [x]) == Elems(f.prefix) + {x};
    ULSums(c.db, Elems(f.prefix + [x]), After(c.twu, x));
  }

  /** It is pending before the offer, and afterwards no longer. */
  lemma CurrentLeaves(c: Config, w: Worker, threshold: int, v: seq<ItemId>)
    requires WorkerOk(c, w, threshold) && w.stack != [] && w.phase.Loaded? && Top(w).i < |Top(w).exts|
    ensures PendingAt(w, v) <==> PendingAt(w.(phase := Raising), v) || v == Current(w)
    ensures !PendingAt(w.(phase := Raising), Current(w))
  {
    hide FrameOk, Under, FromBranches, WorkerOk, BelowPending;
    TopFacts(c, w, threshold);
    var f := Top(w);
    NextBranch(f, v);
    UnderSplit(f, f.exts[f.i + 1..], v);
    NotFromLater(c, f, f.i, f.i + 1, Current(w));
    NotBelow(c, w, threshold, Current(w));
  }

  lemma NotBelow(c: Config, w: Worker, threshold: int, v: seq<ItemId>)
    requires WorkerOk(c, w, threshold) && w.stack != [] && Top(w).prefix <= v
    ensures !BelowPending(w.stack, v)
  {
    hide FromBranches;
    var n := |w.stack| - 1;
    forall d | 0 <= d < n ensures !FromBranches(w.stack[d], w.stack[d].i, v) {
      assert FrameOk(c, w.stack[d]) && Nested(w.stack, d, n);
      NotFromLater(c, w.stack[d], w.stack[d].i - 1, w.stack[d].i, v);
    }
  }

  lemma JustifiedOffer(s: State, k: nat, cand: Cand)
    requires Justified(s, k) && cand !in s.heap
    ensures Justified(s.(heap := PushPop(s.heap, cand, k)), k)
  {
    if s.threshold > 0 {
      var g := s.heap + {cand};
      var m := Least(g);
      assert |g| == k + 1 && |g - {m}| == k;
      assert m != cand ==> m in s.heap && CandLess(m, cand);
    }
  }

  lemma OfferInv(c: Config, s: State, n: nat, s': State)
    requires ValidConfig(c) && Inv(c, s) && n < |s.workers| && OfferStep(c, s, n, s')
    ensures Inv(c, s')
  {
    hide Dropped, WorkerOk, PendingAt, Pending, IsTopK, Spelled, Elsewhere, ValidConfig, Header, FrameOk, PushPop,
         Settled, OfferedOnce, Justified, Owned;
    var w := s.workers[n];
    var f := Top(w);
    var w', v := w.(phase := Raising), Current(w);
    TopFacts(c, w, s.threshold);
    CurrentSpelled(c, f, w.phase.t);
    var cand := Cand(Header(c, f.prefix, f.exts[f.i]).sumIutils, Header(c, f.prefix, f.exts[f.i]).itemset);
    assert cand == CandOf(c, v) by { HeaderNames(c, f.prefix, f.exts[f.i]); }
    SamePhase(c, w, w', s.threshold);
    OfferPending(c, s, n, s', v);
    NotOfferedYet(c, s, cand);
    NotInHeap(s, c.k, cand);
    PushPopTopK(s.heap, s.offered, c.k, cand);
    JustifiedOffer(s, c.k, cand);
    assert Justified(s', c.k) by { SameJustified(s.(heap := PushPop(s.heap, cand, c.k)), s', c.k); }
    OwnedKept(c, s, n, w');
    assert Owned(c, s') by { SameOwned(c, s.(workers := s.workers[n := w']), s'); }
    OfferSettled(c, s, n, s', v);
    OfferOnce(c, s, s', v);
    assert forall m | 0 <= m < |s.workers| :: !s.workers[m].phase.Raising?;
    assert s'.workers[n].phase.Raising?;
  }

  lemma HeaderNames(c: Config, prefix: seq<ItemId>, x: ItemId)
    ensures Header(c, prefix, x).itemset == prefix + [x]
  {
  }

  lemma SameJustified(s: State, s': State, k: nat)
    requires Justified(s, k) && s'.heap == s.heap && s'.threshold == s.threshold
    ensures Justified(s', k)
  {
  }

  lemma SameExclusive(s: State, s': State)
    requires Exclusive(s) && s'.workers == s.workers && s'.locked == s.locked
    ensures Exclusive(s')
  {
  }

  lemma SameOwned(c: Config, s: State, s': State)
    requires Owned(c, s) && s'.todo == s.todo && s'.workers == s.workers
    ensures Owned(c, s')
  {
    assert forall m: nat :: Busy(s', m) <==> Busy(s, m);
  }

  lemma NotOfferedYet(c: Config, s: State, cand: Cand)
    requires OfferedOnce(c, s) && Pending(c, s, cand.itemset)
    ensures cand !in s.offered
  {
  }

  lemma NotInHeap(s: State, k: nat, cand: Cand)
    requires IsTopK(s.heap, s.offered, k) && cand !in s.offered
    ensures cand !in s.heap
  {
  }

  /** An offer takes exactly the offered itemset out of what is pending. */
  lemma OfferPending(c: Config, s: State, n: nat, s': State, v: seq<ItemId>)
    requires ValidConfig(c) && Inv(c, s) && n < |s.workers| && OfferStep(c, s, n, s')
    requires Top(s.workers[n]).i < |Top(s.workers[n]).exts|
    requires v == Current(s.workers[n])
    ensures Pending(c, s, v) && !Pending(c, s', v)
    ensures forall u :: Pending(c, s, u) <==> Pending(c, s', u) || u == v
  {
    hide WorkerOk, PendingAt, Pending, IsTopK, Elsewhere, ValidConfig, Header, PushPop, Settled, OfferedOnce, Justified,
         Exclusive, Owned;
    var w, w' := s.workers[n], s.workers[n].(phase := Raising);
    forall u ensures Pending(c, s, u) <==> Pending(c, s', u) || u == v {
      CurrentLeaves(c, w, s.threshold, u);
      PendingSplit(c, s, n, u);
      PendingSplit(c, s', n, u);
      ElsewhereSame(c, s, s', n, u);
    }
    CurrentLeaves(c, w, s.threshold, v);
    WorkerBounds(c, s, n);
    WorkerOwns(c, w, s.threshold, v);
    OwnedHere(c, s, n, v);
    PendingSplit(c, s', n, v);
    ElsewhereSame(c, s, s', n, v);
  }

  lemma WorkerBounds(c: Config, s: State, n: nat)
    requires Owned(c, s) && n < |s.workers| && s.workers[n].stack != []
    ensures Busy(s, n) && Task(s.workers[n]) < |c.order|
  {
  }

  lemma OfferSettled(c: Config, s: State, n: nat, s': State, v: seq<ItemId>)
    requires Settled(c, s) && s'.offered == s.offered + iset{CandOf(c, v)} && s'.threshold == s.threshold
    requires forall u :: Pending(c, s, u) <==> Pending(c, s', u) || u == v
    ensures Settled(c, s')
  {
    hide Dropped, Pending, Spelled;
  }

  lemma OfferOnce(c: Config, s: State, s': State, v: seq<ItemId>)
    requires OfferedOnce(c, s) && Spelled(c, v) && s'.offered == s.offered + iset{CandOf(c, v)} && !Pending(c, s', v)
    requires forall u :: Pending(c, s, u) <==> Pending(c, s', u) || u == v
    ensures OfferedOnce(c, s')
  {
    hide Pending, Spelled;
  }

  // ----- raising the threshold

  lemma RaiseInv(c: Config, s: State, n: nat, s': State)
    requires ValidConfig(c) && Inv(c, s) && n < |s.workers| && RaiseStep(c, s, n, s')
    ensures Inv(c, s') && s'.threshold >= s.threshold
  {
    hide Dropped, WorkerOk, PendingAt, Pending, IsTopK, Spelled, Elsewhere, ValidConfig, FrameOk, Settled, OfferedOnce,
         Owned;
    var w := s.workers[n];
    var w' := w.(phase := Reloading);
    TopFacts(c, w, s.threshold);
    SamePhase(c, w, w', s.threshold);
    forall m | 0 <= m < |s'.workers| ensures WorkerOk(c, s'.workers[m], s'.threshold) {
      RaisedOk(c, s.(workers := s.workers[n := w']).workers[m], s.threshold, s'.threshold);
    }
    forall v ensures Pending(c, s', v) <==> Pending(c, s, v) {
      PendingSplit(c, s, n, v);
      PendingSplit(c, s', n, v);
      ElsewhereSame(c, s, s', n, v);
      RaisePending(w, v);
    }
    OwnedKept(c, s, n, w');
    SameOwned(c, s.(workers := s.workers[n := w']), s');
    RaiseSettled(c, s, s');
  }

  lemma RaisePending(w: Worker, v: seq<ItemId>)
    requires w.phase.Raising?
    ensures PendingAt(w, v) <==> PendingAt(w.(phase := Reloading), v)
  {
  }

  lemma RaiseSettled(c: Config, s: State, s': State)
    requires Settled(c, s) && OfferedOnce(c, s) && s'.offered == s.offered && s'.threshold >= s.threshold
    requires forall v :: Pending(c, s', v) <==> Pending(c, s, v)
    ensures Settled(c, s') && OfferedOnce(c, s')
  {
    hide Pending, Spelled, Dropped;
    forall v | Dropped(c, v, s.threshold) ensures Dropped(c, v, s'.threshold) { DroppedRises(c, v, s.threshold, s'.threshold); }
  }

  // ----- taking a task

  lemma StartInv(c: Config, s: State, n: nat, task: nat)
    requires ValidConfig(c) && Inv(c, s) && n < |s.workers| && s.workers[n].stack == [] && task in s.todo
    ensures Inv(c, Started(c, s, n, task))
  {
    hide Dropped, PendingAt, Pending, IsTopK, Spelled, Settled, OfferedOnce, Justified;
    var s' := Started(c, s, n, task);
    StartOk(c, task, s.threshold);
    forall v ensures Pending(c, s', v) <==> Pending(c, s, v) {
      StartPending(c, s, n, task, v);
    }
    forall m: nat | Busy(s', m) && m != n ensures Busy(s, m) {
    }
    assert Task(s'.workers[n]) == task;
    ExclusiveKept(s, n, s'.workers[n]);
    SameExclusive(s.(workers := s'.workers), s');
    RaiseSettled(c, s, s');
    SameJustified(s, s', c.k);
  }

  lemma StartOk(c: Config, task: nat, threshold: int)
    requires ValidConfig(c) && task < |c.order|
    ensures WorkerOk(c, Worker([Frame([], c.order, task, task + 1)], Idle), threshold)
  {
  }

  lemma StartPending(c: Config, s: State, n: nat, task: nat, v: seq<ItemId>)
    requires n < |s.workers| && s.workers[n].stack == [] && task in s.todo && task < |c.order|
    ensures Pending(c, Started(c, s, n, task), v) <==> Pending(c, s, v)
  {
    hide Under;
    var s', f := Started(c, s, n, task), Frame([], c.order, task, task + 1);
    var w' := Worker([f], Idle);
    assert PendingAt(w', v) <==> Under([], c.order[task], c.order[task + 1..], v) by { OneBranch(f, v); }
    assert forall m | 0 <= m < |s.workers| && m != n :: s'.workers[m] == s.workers[m];
    assert s'.workers[n] == w' && !PendingAt(s.workers[n], v);
  }

  lemma OneBranch(f: Frame, v: seq<ItemId>)
    requires f.i < |f.exts| && f.stop == f.i + 1
    ensures PendingAt(Worker([f], Idle), v) <==> Under(f.prefix, f.exts[f.i], f.exts[f.i + 1..], v)
  {
    if Under(f.prefix, f.exts[f.i], f.exts[f.i + 1..], v) { assert f.i <= f.i < f.stop; }
  }

  // ----- the theorems

  lemma InitInv(c: Config, s: State)
    requires ValidConfig(c) && Init(c, s)
    ensures Inv(c, s)
  {
    hide Under;
    forall v | Spelled(c, v) ensures TaskPending(c, s, v) && Pending(c, s, v) {
      var task := FirstTask(c, v);
      assert task in s.todo;
    }
    assert forall n: nat :: !Busy(s, n);
  }

  lemma FirstTask(c: Config, v: seq<ItemId>) returns (task: nat)
    requires ValidConfig(c) && Spelled(c, v)
    ensures task < |c.order| && Under([], c.order[task], c.order[task + 1..], v)
  {
    assert v[0] in Elems(v) && v[0] in Elems(c.order);
    task :| task < |c.order| && c.order[task] == v[0];
    forall m | 0 < m < |v| ensures v[m] in c.order[task + 1..] {
      assert v[m] in Elems(v) && v[m] in Elems(c.order);
      var b :| 0 <= b < |c.order| && c.order[b] == v[m];
      assert Less(c.twu, v[0], v[m]);
      LaterPosition(c, c.order, task, b);
      assert c.order[task + 1..][b - task - 1] == v[m];
    }
  }

  lemma StepInv(c: Config, s: State, s': State)
    requires ValidConfig(c) && Inv(c, s) && Next(c, s, s')
    ensures Inv(c, s') && s'.threshold >= s.threshold
  {
    hide Inv, LocalStep, OfferStep, RaiseStep, ValidConfig;
    var n: nat :| n < |s.workers| && WorkerStep(c, s, n, s');
    if OfferStep(c, s, n, s') {
      OfferInv(c, s, n, s');
      OfferKeepsThreshold(c, s, n, s');
    } else if RaiseStep(c, s, n, s') {
      RaiseInv(c, s, n, s');
    } else if StartStep(c, s, n, s') {
      var task :| task in s.todo && s' == Started(c, s, n, task);
      StartInv(c, s, n, task);
    } else {
      var w' :| LocalStep(c, s.workers[n], w', s.threshold) && s' == s.(workers := s.workers[n := w']);
      LocalInv(c, s, n, w');
    }
  }

  lemma OfferKeepsThreshold(c: Config, s: State, n: nat, s': State)
    requires n < |s.workers| && OfferStep(c, s, n, s')
    ensures s'.threshold == s.threshold
  {
  }

  lemma {:induction false} RunInv(c: Config, ss: seq<State>, n: nat)
    requires ValidConfig(c) && Execution(c, ss) && n < |ss|
    ensures Inv(c, ss[n])
  {
    hide Inv, Next, Init;
    if n == 0 {
      InitInv(c, ss[0]);
    } else {
      RunInv(c, ss, n - 1);
      assert Next(c, ss[n - 1], ss[n]);
      StepInv(c, ss[n - 1], ss[n]);
    }
  }

  /** The threshold never falls. */
  lemma {:induction false} ThresholdRises(c: Config, ss: seq<State>, a: nat, b: nat)
    requires ValidConfig(c) && Execution(c, ss) && a <= b < |ss|
    ensures ss[a].threshold <= ss[b].threshold
  {
    hide Inv, Next, Init;
    if a < b {
      ThresholdRises(c, ss, a, b - 1);
      RunInv(c, ss, b - 1);
      assert Next(c, ss[b - 1], ss[b]);
      StepInv(c, ss[b - 1], ss[b]);
    }
  }

  /** At every moment of every schedule the threshold is at most the k-th best utility there is. */
  lemma ThresholdBelowKthBest(c: Config, ss: seq<State>, n: nat, F: set<Cand>)
    requires ValidConfig(c) && Execution(c, ss) && n < |ss| && IsTopK(F, AllCands(c), c.k) && ss[n].threshold > 0
    ensures |F| == c.k && forall f | f in F :: f.utility >= ss[n].threshold
  {
    hide Execution, WorkerOk, Owned, Settled, ValidConfig, AllCands, Exclusive, Pending;
    RunInv(c, ss, n);
    var heap := ss[n].heap;
    forall h | h in heap ensures h in AllCands(c) {
      assert h in ss[n].offered;
    }
    if !(heap <= F) {
      var h :| h in heap && h !in F;
    } else {
      SubsetSize(heap, F);
    }
    forall f | f in F ensures f.utility >= ss[n].threshold {
      if f !in heap {
        if heap <= F {
          SubsetSize(heap, F);
        } else {
          var h :| h in heap && h !in F;
          assert CandLess(h, f);
        }
      }
    }
  }

  /** With a complete table: whatever the schedule and however stale the thresholds read, the final heap
      is exactly the k best of all supported itemsets, or all of them if there are fewer. */
  lemma FinalHeap(c: Config, ss: seq<State>)
    requires ValidConfig(c) && CompleteTable(c) && Execution(c, ss) && Finished(ss[|ss| - 1])
    ensures IsTopK(ss[|ss| - 1].heap, AllCands(c), c.k)
  {
    hide Init, Next, WorkerOk, Owned, ValidConfig, Exclusive, Spelled, CompleteTable, Dropped;
    var s := ss[|ss| - 1];
    RunInv(c, ss, |ss| - 1);
    forall v ensures !Pending(c, s, v) {
    }
    forall x | x in AllCands(c) && x !in s.heap ensures |s.heap| == c.k && forall h | h in s.heap :: CandLess(x, h) {
      if x !in s.offered {
        assert CandOf(c, x.itemset) == x;
        CoverNonNegative(c, x.itemset);
        CompleteDropsBelow(c, x.itemset, s.threshold);
      }
    }
  }

  lemma CoverNonNegative(c: Config, v: seq<ItemId>)
    requires ValidConfig(c)
    ensures Utility(c.db, Elems(v)) >= 0
  {
    CoverSumMonotone(c.db, Elems(v), Elems(v), Elems(v), Elems(v));
  }

  lemma ScheduleIndependent(c: Config, ss: seq<State>, rr: seq<State>)
    requires ValidConfig(c) && CompleteTable(c)
    requires Execution(c, ss) && Execution(c, rr) && Finished(ss[|ss| - 1]) && Finished(rr[|rr| - 1])
    ensures ss[|ss| - 1].heap == rr[|rr| - 1].heap
  {
    hide Init, Next, Finished, IsTopK;
    FinalHeap(c, ss);
    FinalHeap(c, rr);
    TopKUnique(ss[|ss| - 1].heap, rr[|rr| - 1].heap, AllCands(c), c.k);
  }

  // ----- progress

  /** No schedule gets stuck: until everything is finished, some worker can step. */
  lemma Progress(c: Config, s: State) returns (s': State)
    requires ValidConfig(c) && Inv(c, s) && s.workers != [] && !Finished(s)
    ensures Next(c, s, s')
  {
    hide ValidConfig, Pending, Spelled, AllCands, IsTopK, LocalStep, WorkerOk, Header, Settled, OfferedOnce, Justified,
         Owned;
    if s.locked {
      var n :| 0 <= n < |s.workers| && s.workers[n].phase.Raising?;
      BusyPhase(c, s.workers[n], s.threshold);
      s' := s.(threshold := Raised(s.heap, c.k, s.threshold), locked := false, workers := s.workers[n := s.workers[n].(phase := Reloading)]);
      assert WorkerStep(c, s, n, s');
    } else if exists n :: 0 <= n < |s.workers| && s.workers[n].stack != [] {
      var n :| 0 <= n < |s.workers| && s.workers[n].stack != [];
      s' := BusyWorkerSteps(c, s, n);
    } else {
      var task :| task in s.todo;
      s' := Started(c, s, 0, task);
      assert WorkerStep(c, s, 0, s');
    }
  }

  lemma BusyPhase(c: Config, w: Worker, threshold: int)
    requires WorkerOk(c, w, threshold) && !w.phase.Idle?
    ensures w.stack != []
  {
  }

  lemma BusyWorkerSteps(c: Config, s: State, n: nat) returns (s': State)
    requires n < |s.workers| && s.workers[n].stack != [] && !s.locked && Exclusive(s) && WorkerOk(c, s.workers[n], s.threshold)
    ensures Next(c, s, s')
  {
    hide WorkerOk, Header, FrameOk;
    var w := s.workers[n];
    TopFacts(c, w, s.threshold);
    var f := Top(w);
    if w.phase.Loaded? && !Header(c, f.prefix, f.exts[f.i]).CanPrune(w.phase.t) && Header(c, f.prefix, f.exts[f.i]).IsHighUtility(w.phase.t) {
      var ul := Header(c, f.prefix, f.exts[f.i]);
      var cand := Cand(ul.sumIutils, ul.itemset);
      s' := s.(heap := PushPop(s.heap, cand, c.k), offered := s.offered + iset{cand}, locked := true,
               workers := s.workers[n := w.(phase := Raising)]);
      assert OfferStep(c, s, n, s');
      assert WorkerStep(c, s, n, s');
    } else {
      var w' := WorkerMoves(c, w, s.threshold);
      s' := s.(workers := s.workers[n := w']);
      assert WorkerStep(c, s, n, s');
    }
  }

  lemma WorkerMoves(c: Config, w: Worker, threshold: int) returns (w': Worker)
    requires w.stack != [] && !w.phase.Raising? && Top(w).i <= Top(w).stop <= |Top(w).exts|
    requires PhaseOk(c, Top(w), w.phase, threshold)
    requires w.phase.Loaded? ==>
               var ul := Header(c, Top(w).prefix, Top(w).exts[Top(w).i]); ul.CanPrune(w.phase.t) || !ul.IsHighUtility(w.phase.t)
    ensures LocalStep(c, w, w', threshold)
  {
    hide Header;
    var f := Top(w);
    match w.phase
    case Idle => w' := if f.i == f.stop then Worker(w.stack[..|w.stack| - 1], Idle) else w.(phase := Loaded(threshold));
    case Loaded(t) => w' := if Header(c, f.prefix, f.exts[f.i]).CanPrune(t) then Advance(w) else w.(phase := Expanding(t, f.i + 1, []));
    case Reloading => w' := w.(phase := Expanding(threshold, f.i + 1, []));
    case Expanding(t, j, next) =>
      if j < |f.exts| {
        w' := w.(phase := Expanding(t, j + 1, if Cuts(c.table, f.exts[f.i], f.exts[j], t) then next else next + [f.exts[j]]));
      } else {
        w' := if next == [] then Advance(w) else Descend(w, next);
      }
  }

  // ----- before and after the search

  /** Both passes over the database: the search starts from a valid configuration, whose table is the final
      table of the database and the room in the guard, complete if every request is granted; and the lists
      the tasks start from are those of the single items. */
  method Prepare(db: Database, k: nat, guard: MemoryGuard)
    returns (eucs: Eucs, order: seq<ItemId>, lists: map<ItemId, seq<ULEntry>>, ghost c: Config, granted: bool)
    requires ValidDatabase(db)
    modifies guard
    ensures fresh(eucs) && c.db == db && c.order == order && c.table == eucs.inner && c.k == k
    ensures granted <==> AllPairsFit(db, c.twu.Keys, old(guard.used), guard.budget)
    ensures ValidConfig(c) && c.twu == TwuOf(db, 0) && c.table == FinalTable(db, c.twu, Room(old(guard.used), guard.budget))
    ensures granted ==> CompleteTable(c)
    ensures lists.Keys == Elems(order) && forall x | x in lists :: lists[x] == UL(db, {x}, After(c.twu, x))
  {
    hide UL, After, AllPairsFit, Complete, IsTwuFilter, FinalTable, Room, TwuOf;
    var filter := Compute(db, 0);
    TwuOfIs(db, 0);
    eucs := new Eucs();
    lists, granted := Fhm.Pass2(db, filter.twu, eucs, guard);
    order := SortedKeys(filter.twu, lists.Keys);
    c := Config(db, filter.twu, eucs.inner, order, k);
    assert db[..|db|] == db;
    ListedItems(db, filter.twu, lists);
  }

  lemma ListedItems(db: Database, twu: TwuMap, lists: map<ItemId, seq<ULEntry>>)
    requires IsTwuFilter(db, 0, twu) && Fhm.Collected(db, twu, |db|, lists)
    ensures lists.Keys == twu.Keys
  {
    assert db[..|db|] == db;
  }

  /** After the last task: the heap is drained and written, best first. */
  method WriteResults(ghost c: Config, state: TkoState, out: ResultWriter) returns (r: Result<nat>, ghost results: seq<Cand>)
    requires forall h | h in state.heap :: h in AllCands(c)
    modifies state, out
    ensures Elems(results) == old(state.heap) && forall i, j | 0 <= i < j < |results| :: CandLess(results[j], results[i])
    ensures r.Ok? ==>
              r.value == |results| && |out.huis| == |old(out.huis)| + |results| && out.huis[..|old(out.huis)|] == old(out.huis)
    ensures r.Ok? ==> forall i | 0 <= i < |results| ::
              out.huis[|old(out.huis)| + i] == Hui(results[i].itemset, Utility(c.db, Elems(results[i].itemset)))
    ensures out.Lost() >= old(out.Lost()) && (r.Err? ==> r.error == Io && out.Lost() > old(out.Lost()))
  {
    hide Spelled, Utility, CandLess;
    var drained := state.Drain();
    results := drained;
    for i := 0 to |drained|
      invariant |out.huis| == |old(out.huis)| + i && out.huis[..|old(out.huis)|] == old(out.huis)
      invariant out.Lost() >= old(out.Lost())
      invariant forall j | 0 <= j < i ::
          out.huis[|old(out.huis)| + j] == Hui(results[j].itemset, Utility(c.db, Elems(results[j].itemset)))
    {
      assert drained[i] in Elems(results);
      assert drained[i] in AllCands(c);
      var w := out.WriteHui(drained[i].itemset, drained[i].utility);
      if w.Err? { return Err(w.error), results; }
    }
    r := Ok(|drained|);
  }
}
