/** Every schedule of TKO's workers ends (src/mining/algorithms/tko.rs): a measure that each step of each
    worker decreases bounds the length of all schedules in advance, so a schedule that cannot go on has
    finished, and every schedule can be completed. */
module TkoTermination {
  import opened Huim
  import opened TopK
  import opened Tko

  /** The steps a level can still take with k turns left and m extensions not yet passed: per turn, some
      for itself, a level below over the extensions behind it, and the turns that follow. */
  ghost function Turns(k: nat, m: nat): nat
    decreases m
  {
    if k == 0 || m == 0 then 1 else m + 6 + Turns(m - 1, m - 1) + Turns(k - 1, m - 1)
  }

  lemma {:induction false} TurnsGrow(k: nat, m: nat, k': nat, m': nat)
    requires k <= k' && m <= m'
    ensures 1 <= Turns(k, m) <= Turns(k', m')
    decreases m'
  {
    if k > 0 && m > 0 {
      TurnsGrow(m - 1, m - 1, m' - 1, m' - 1);
      TurnsGrow(k - 1, m - 1, k' - 1, m' - 1);
    }
  }

  ghost function FrameCost(f: Frame): nat {
    if f.i <= f.stop <= |f.exts| then Turns(f.stop - f.i, |f.exts| - f.i) else 0
  }

  /** The level a worker is in, inside a turn. */
  ghost function TopCost(f: Frame, phase: Phase): nat {
    if !(f.i < f.stop <= |f.exts|) then FrameCost(f)
    else
      var m := |f.exts| - f.i;
      var later := Turns(f.stop - f.i - 1, m - 1);
      match phase
      case Idle => FrameCost(f)
      case Loaded(_) => m + 5 + Turns(m - 1, m - 1) + later
      case Raising => m + 4 + Turns(m - 1, m - 1) + later
      case Reloading => m + 3 + Turns(m - 1, m - 1) + later
      case Expanding(_, j, next) =>
        var left := if j <= |f.exts| then |f.exts| - j else 0;
        left + 1 + Turns(|next| + left, |next| + left) + later
  }

  ghost function StackCost(stack: seq<Frame>): nat {
    if stack == [] then 0 else StackCost(stack[..|stack| - 1]) + FrameCost(stack[|stack| - 1])
  }

  ghost function WorkerCost(w: Worker): nat {
    if w.stack == [] then 0 else StackCost(w.stack[..|w.stack| - 1]) + TopCost(Top(w), w.phase)
  }

  ghost function WorkersCost(ws: seq<Worker>): nat {
    if ws == [] then 0 else WorkersCost(ws[..|ws| - 1]) + WorkerCost(ws[|ws| - 1])
  }

  /** A waiting task: taking it, and the level it starts. */
  ghost function TaskCost(c: Config): nat {
    1 + Turns(1, |c.order|)
  }

  /** An upper bound on the steps that are still possible. */
  ghost function Work(c: Config, s: State): nat {
    |s.todo| * TaskCost(c) + WorkersCost(s.workers)
  }

  lemma {:induction false} WorkersCostUpdate(ws: seq<Worker>, n: nat, w: Worker)
    requires n < |ws|
    ensures WorkersCost(ws[n := w]) == WorkersCost(ws) - WorkerCost(ws[n]) + WorkerCost(w)
  {
    var m := |ws| - 1;
    if n < m {
      WorkersCostUpdate(ws[..m], n, w);
      assert ws[n := w][..m] == ws[..m][n := w];
    } else {
      assert ws[n := w][..m] == ws[..m];
    }
  }

  /** An idle worker costs what its levels cost. */
  lemma IdleCost(stack: seq<Frame>)
    ensures WorkerCost(Worker(stack, Idle)) == StackCost(stack)
  {
  }

  lemma StackSnoc(stack: seq<Frame>, f: Frame)
    ensures StackCost(stack + [f]) == StackCost(stack) + FrameCost(f)
  {
    assert (stack + [f])[..|stack|] == stack;
  }

  lemma AdvanceCost(w: Worker)
    requires w.stack != []
    ensures WorkerCost(Advance(w)) == StackCost(w.stack[..|w.stack| - 1]) + FrameCost(Top(w).(i := Top(w).i + 1))
  {
    var rest, f := w.stack[..|w.stack| - 1], Top(w).(i := Top(w).i + 1);
    IdleCost(rest + [f]);
    StackSnoc(rest, f);
  }

  lemma DescendCost(w: Worker, next: seq<ItemId>)
    requires w.stack != [] && Top(w).i < |Top(w).exts|
    ensures WorkerCost(Descend(w, next)) == WorkerCost(Advance(w)) + Turns(|next|, |next|)
  {
    var f := Frame(Top(w).prefix + [Top(w).exts[Top(w).i]], next, 0, |next|);
    IdleCost(Advance(w).stack);
    IdleCost(Advance(w).stack + [f]);
    StackSnoc(Advance(w).stack, f);
  }

  /** What the measure needs of a worker's current level. */
  ghost predicate InTurn(w: Worker) {
    w.stack != [] && Top(w).i <= Top(w).stop <= |Top(w).exts| && (!w.phase.Idle? ==> Top(w).i < Top(w).stop)
    && (w.phase.Expanding? ==> Top(w).i < w.phase.j <= |Top(w).exts|)
  }

  lemma OkInTurn(c: Config, w: Worker, threshold: int)
    requires WorkerOk(c, w, threshold) && w.stack != []
    ensures InTurn(w)
  {
    assert FrameOk(c, w.stack[|w.stack| - 1]);
  }

  lemma LocalWork(c: Config, w: Worker, w': Worker, threshold: int)
    requires InTurn(w) && LocalStep(c, w, w', threshold)
    ensures WorkerCost(w') < WorkerCost(w)
  {
    hide Turns, StackCost, Header;
    var f := Top(w);
    match w.phase
    case Idle =>
      if f.i == f.stop { PopWork(w); } else { LoadWork(w, w'); }
    case Loaded(t) =>
      AdvanceWork(w);
      ExpandWork(w, t);
    case Reloading =>
      ExpandWork(w, w'.phase.t);
    case Expanding(t, j, next) =>
      if j < |f.exts| {
        ScanWork(w, w', t, j, next);
      } else {
        AdvanceWork(w);
        DescendWork(w, next);
      }
  }

  lemma PopWork(w: Worker)
    requires InTurn(w) && w.phase.Idle? && Top(w).i == Top(w).stop
    ensures WorkerCost(Worker(w.stack[..|w.stack| - 1], Idle)) < WorkerCost(w)
  {
    hide StackCost;
    IdleCost(w.stack[..|w.stack| - 1]);
  }

  lemma LoadWork(w: Worker, w': Worker)
    requires InTurn(w) && w.phase.Idle? && Top(w).i < Top(w).stop && w'.stack == w.stack && w'.phase.Loaded?
    ensures WorkerCost(w') < WorkerCost(w)
  {
    hide StackCost;
  }

  lemma AdvanceWork(w: Worker)
    requires InTurn(w) && !w.phase.Idle?
    ensures WorkerCost(Advance(w)) < WorkerCost(w)
  {
    hide StackCost, Turns;
    AdvanceCost(w);
  }

  lemma ExpandWork(w: Worker, t: int)
    requires InTurn(w) && (w.phase.Loaded? || w.phase.Reloading?)
    ensures WorkerCost(w.(phase := Expanding(t, Top(w).i + 1, []))) < WorkerCost(w)
  {
    hide StackCost, Turns;
  }

  lemma ScanWork(w: Worker, w': Worker, t: int, j: nat, next: seq<ItemId>)
    requires InTurn(w) && w.phase == Expanding(t, j, next) && j < |Top(w).exts|
    requires w'.stack == w.stack && w'.phase.Expanding? && w'.phase.j == j + 1 && |w'.phase.next| <= |next| + 1
    ensures WorkerCost(w') < WorkerCost(w)
  {
    hide StackCost, Turns;
    var left := |Top(w).exts| - j;
    var small, large := |w'.phase.next| + left - 1, |next| + left;
    TurnsGrow(small, small, large, large);
  }

  lemma DescendWork(w: Worker, next: seq<ItemId>)
    requires InTurn(w) && w.phase.Expanding? && w.phase.next == next && w.phase.j == |Top(w).exts|
    ensures WorkerCost(Descend(w, next)) < WorkerCost(w)
  {
    hide StackCost, Turns;
    AdvanceCost(w);
    DescendCost(w, next);
  }

  /** Offering and raising only move on inside a turn. */
  lemma SharedWork(w: Worker)
    requires InTurn(w)
    ensures w.phase.Loaded? ==> WorkerCost(w.(phase := Raising)) < WorkerCost(w)
    ensures w.phase.Raising? ==> WorkerCost(w.(phase := Reloading)) < WorkerCost(w)
  {
    hide StackCost, Turns;
  }

  lemma StartWork(c: Config, task: nat)
    requires task < |c.order|
    ensures WorkerCost(Worker([Frame([], c.order, task, task + 1)], Idle)) < TaskCost(c)
  {
    TurnsGrow(1, |c.order| - task, 1, |c.order|);
    var f := Frame([], c.order, task, task + 1);
    IdleCost([f]);
    StackSnoc([], f);
    assert [] + [f] == [f];
  }

  /** Every step of every worker decreases the work left. */
  lemma StepWork(c: Config, s: State, s': State)
    requires Inv(c, s) && Next(c, s, s')
    ensures Work(c, s') < Work(c, s) && |s'.workers| == |s.workers|
  {
    hide LocalStep, WorkerOk, WorkerCost, WorkersCost, TaskCost, OfferedOnce, Settled, Justified, IsTopK, Exclusive,
         Pending;
    var n: nat :| n < |s.workers| && WorkerStep(c, s, n, s');
    var w := s.workers[n];
    if OfferStep(c, s, n, s') || RaiseStep(c, s, n, s') {
      OkInTurn(c, w, s.threshold);
      SharedWork(w);
      WorkersCostUpdate(s.workers, n, s'.workers[n]);
    } else if StartStep(c, s, n, s') {
      var task :| task in s.todo && s' == Started(c, s, n, task);
      StartWork(c, task);
      WorkersCostUpdate(s.workers, n, s'.workers[n]);
      NoTaskNoWork(w);
      LessTodo(|s.todo|, TaskCost(c));
    } else {
      var w' :| LocalStep(c, w, w', s.threshold) && s' == s.(workers := s.workers[n := w']);
      BusyLocal(c, w, w', s.threshold);
      OkInTurn(c, w, s.threshold);
      LocalWork(c, w, w', s.threshold);
      WorkersCostUpdate(s.workers, n, w');
    }
  }

  lemma BusyLocal(c: Config, w: Worker, w': Worker, threshold: int)
    requires LocalStep(c, w, w', threshold)
    ensures w.stack != []
  {
  }

  lemma NoTaskNoWork(w: Worker)
    requires w.stack == []
    ensures WorkerCost(w) == 0
  {
  }

  lemma LessTodo(n: nat, cost: nat)
    requires n > 0
    ensures (n - 1) * cost == n * cost - cost
  {
  }

  /** All schedules are bounded in advance: by the work that the waiting tasks can make. */
  lemma {:induction false} ScheduleBounded(c: Config, ss: seq<State>, n: nat)
    requires ValidConfig(c) && Execution(c, ss) && n < |ss|
    ensures n + Work(c, ss[n]) <= |c.order| * TaskCost(c) && |ss[n].workers| == |ss[0].workers|
  {
    hide Work, Inv, Next, ValidConfig, TaskCost;
    if n == 0 {
      StartsBounded(c, ss[0]);
    } else {
      ScheduleBounded(c, ss, n - 1);
      RunInv(c, ss, n - 1);
      assert Next(c, ss[n - 1], ss[n]);
      StepWork(c, ss[n - 1], ss[n]);
    }
  }

  lemma StartsBounded(c: Config, s: State)
    requires Init(c, s)
    ensures Work(c, s) == |c.order| * TaskCost(c)
  {
    hide WorkerCost, TaskCost;
    NobodyWorks(s.workers);
    CountTo(s.todo, |c.order|);
  }

  lemma {:induction false} NobodyWorks(ws: seq<Worker>)
    requires forall n | 0 <= n < |ws| :: ws[n] == Worker([], Idle)
    ensures WorkersCost(ws) == 0
  {
    if ws != [] { NobodyWorks(ws[..|ws| - 1]); }
  }

  lemma {:induction false} CountTo(todo: set<nat>, n: nat)
    requires forall i: nat :: i in todo <==> i < n
    ensures |todo| == n
  {
    if n > 0 {
      CountTo(todo - {n - 1}, n - 1);
      assert todo == todo - {n - 1} + {n - 1};
    }
  }

  /** Nobody can take a step. */
  ghost predicate Stuck(c: Config, s: State) {
    forall s' :: !Next(c, s, s')
  }

  /** A schedule that nobody can continue has finished, with a complete table with the k best in the heap. */
  lemma MaximalFinishes(c: Config, ss: seq<State>)
    requires ValidConfig(c) && Execution(c, ss) && ss[0].workers != [] && Stuck(c, ss[|ss| - 1])
    ensures Finished(ss[|ss| - 1]) && (CompleteTable(c) ==> IsTopK(ss[|ss| - 1].heap, AllCands(c), c.k))
    ensures |ss| <= 1 + |c.order| * TaskCost(c)
  {
    hide Work, Inv, Next, ValidConfig, TaskCost, Finished, IsTopK, Init, CompleteTable;
    var last := |ss| - 1;
    RunInv(c, ss, last);
    ScheduleBounded(c, ss, last);
    if !Finished(ss[last]) {
      var s' := Progress(c, ss[last]);
    }
    if CompleteTable(c) { FinalHeap(c, ss); }
  }

  /** Every schedule can be completed, and with a complete table it then ends with the k best. */
  lemma {:induction false} Completes(c: Config, ss: seq<State>) returns (tt: seq<State>)
    requires ValidConfig(c) && Execution(c, ss) && ss[0].workers != []
    ensures ss <= tt && Execution(c, tt) && Finished(tt[|tt| - 1])
    ensures CompleteTable(c) ==> IsTopK(tt[|tt| - 1].heap, AllCands(c), c.k)
    decreases Work(c, ss[|ss| - 1])
  {
    hide Work, Inv, Next, ValidConfig, TaskCost, Finished, Init, CompleteTable, IsTopK;
    var last := |ss| - 1;
    RunInv(c, ss, last);
    ScheduleBounded(c, ss, last);
    if Finished(ss[last]) {
      tt := ss;
      if CompleteTable(c) { FinalHeap(c, ss); }
    } else {
      var s' := Progress(c, ss[last]);
      StepWork(c, ss[last], s');
      var longer := ss + [s'];
      forall n | 0 <= n < |longer| - 1 ensures Next(c, longer[n], longer[n + 1]) {
        if n < last { assert Next(c, ss[n], ss[n + 1]); }
      }
      tt := Completes(c, longer);
    }
  }
}
