/** The byte ledger when clients also free bytes they were refused, as EFIM does on its spill path
    (src/mining/core/memory_guard.rs:27-48, src/mining/algorithms/efim.rs:287-303): separate atomic steps of
    any number of clients. The counter is a mathematical integer here; below zero the source's wraps. */
module OverFree {
  import G = GuardProtocol

  datatype Pc = Ready | Added(bytes: nat, prev: int) | Refusing(bytes: nat) | Freeing(own: nat, extra: nat, amount: nat)

  /** held are bytes granted or forced; over is the total of bytes freed without being held. */
  datatype Client = Client(held: nat, over: nat, pc: Pc)
  {
    function InFlight(): nat {
      match pc
      case Added(b, _) => b
      case Refusing(b) => b
      case _ => 0
    }

    /** What the counter should hold for this client, less what it freed too much. */
    function Net(): int {
      held + InFlight() - over
    }
  }

  datatype Ledger = Ledger(used: int, budget: nat, clients: seq<Client>)

  datatype Action =
    | Add(bytes: nat)
    | Decide
    | Undo
    | Force(bytes: nat)
    // free(own + extra), whose load returns `seen`.
    | Load(own: nat, extra: nat, seen: nat)
    | Subtract

  predicate Enabled(c: Client, a: Action) {
    match a
    case Add(_) => c.pc.Ready?
    case Decide => c.pc.Added?
    case Undo => c.pc.Refusing?
    case Force(_) => c.pc.Ready?
    case Load(own, _, _) => c.pc.Ready? && own <= c.held
    case Subtract => c.pc.Freeing? && c.pc.own <= c.held
  }

  function UsedAfter(used: int, c: Client, a: Action): int
    requires Enabled(c, a)
  {
    match a
    case Add(b) => used + b
    case Decide => used
    case Undo => used - c.pc.bytes
    case Force(b) => used + b
    case Load(_, _, _) => used
    case Subtract => used - c.pc.amount
  }

  function ClientAfter(used: int, budget: nat, c: Client, a: Action): Client
    requires Enabled(c, a)
  {
    match a
    case Add(b) => c.(pc := Added(b, used))
    case Decide => if c.pc.prev + c.pc.bytes > budget then c.(pc := Refusing(c.pc.bytes)) else c.(pc := Ready, held := c.held + c.pc.bytes)
    case Undo => c.(pc := Ready)
    case Force(b) => c.(held := c.held + b)
    case Load(own, extra, seen) => c.(pc := Freeing(own, extra, if own + extra < seen then own + extra else seen))
    case Subtract => Client(c.held - c.pc.own, c.over + c.pc.extra, Ready)
  }

  ghost predicate Step(s: Ledger, n: nat, a: Action, s': Ledger) {
    && n < |s.clients| && Enabled(s.clients[n], a)
    && s' == Ledger(UsedAfter(s.used, s.clients[n], a), s.budget, s.clients[n := ClientAfter(s.used, s.budget, s.clients[n], a)])
  }

  ghost predicate Init(s: Ledger) {
    s.used == 0 && forall n | 0 <= n < |s.clients| :: s.clients[n] == Client(0, 0, Ready)
  }

  ghost predicate Next(s: Ledger, s': Ledger) {
    exists n: nat, a :: Step(s, n, a, s')
  }

  ghost predicate Execution(ss: seq<Ledger>) {
    ss != [] && Init(ss[0]) && forall i | 0 <= i < |ss| - 1 :: Next(ss[i], ss[i + 1])
  }

  // ----- clients that free only what they hold

  function PcOf(pc: G.Pc): Pc {
    match pc
    case Ready => Ready
    case Added(bytes, prev) => Added(bytes, prev)
    case Refusing(bytes) => Refusing(bytes)
    case Freeing(g, f, amount) => Freeing(g + f, 0, amount)
  }

  function ClientOf(c: G.Client): Client {
    Client(c.Held(), 0, PcOf(c.pc))
  }

  function ActionOf(a: G.Action): Action {
    match a
    case Add(bytes) => Add(bytes)
    case Decide => Decide
    case Undo => Undo
    case Force(bytes) => Force(bytes)
    case Load(g, f, seen) => Load(g + f, 0, seen)
    case Subtract => Subtract
  }

  ghost function LedgerOf(s: G.Ledger): Ledger {
    Ledger(s.used, s.budget, seq(|s.clients|, n requires 0 <= n < |s.clients| => ClientOf(s.clients[n])))
  }

  lemma DisciplinedInit(s: G.Ledger)
    requires G.Init(s)
    ensures Init(LedgerOf(s))
  {
    forall n | 0 <= n < |s.clients| ensures ClientOf(s.clients[n]) == Client(0, 0, Ready) { assert G.IsNew(s.clients[n]); }
  }

  /** A disciplined client can take a step there exactly if it can here, apart from how stale its load is. */
  lemma DisciplinedEnabled(c: G.Client, a: G.Action)
    requires G.ClientOk(c) && (a.Load? ==> a.g <= c.granted && a.f <= c.forced && a.seen >= c.low)
    ensures Enabled(ClientOf(c), ActionOf(a)) <==> G.Enabled(c, a)
  {
  }

  /** Their steps there are steps here. */
  lemma DisciplinedStep(s: G.Ledger, n: nat, a: G.Action, s': G.Ledger)
    requires G.Exact(s) && G.Step(s, n, a, s')
    ensures Step(LedgerOf(s), n, ActionOf(a), LedgerOf(s'))
  {
    hide G.Counted, G.AcceptedBytes;
    var c := s.clients[n];
    assert G.ClientOk(c);
    DisciplinedClient(s.used, s.budget, c, a);
    assert LedgerOf(s').clients == LedgerOf(s).clients[n := ClientAfter(s.used, s.budget, ClientOf(c), ActionOf(a))];
  }

  lemma DisciplinedClient(used: nat, budget: nat, c: G.Client, a: G.Action)
    requires G.ClientOk(c) && G.Enabled(c, a)
    ensures Enabled(ClientOf(c), ActionOf(a))
    ensures UsedAfter(used, ClientOf(c), ActionOf(a)) == G.UsedAfter(used, c, a)
    ensures ClientAfter(used, budget, ClientOf(c), ActionOf(a)) == ClientOf(G.ClientAfter(used, budget, c, a))
  {
    match a
    case Add(_) =>
    case Decide =>
    case Undo =>
    case Force(_) =>
    case Load(_, _, _) =>
    case Subtract =>
  }

  /** A free of more than is held, when nobody interferes: the counter falls by the bytes named, to zero at most. */
  lemma OverFreeAlone(s: Ledger, n: nat, own: nat, extra: nat)
    requires n < |s.clients| && s.clients[n].pc.Ready? && own <= s.clients[n].held && s.used >= 0
    ensures var c, a := s.clients[n], Load(own, extra, s.used);
            var mid := ClientAfter(s.used, s.budget, c, a);
            && Enabled(c, a) && Enabled(mid, Subtract)
            && UsedAfter(s.used, mid, Subtract) == (if own + extra <= s.used then s.used - (own + extra) else 0)
            && ClientAfter(s.used, s.budget, mid, Subtract) == Client(c.held - own, c.over + extra, Ready)
  {
  }

  // ----- how far the counter can fall

  ghost function HeldBytes(cs: seq<Client>): nat {
    if cs == [] then 0 else HeldBytes(cs[..|cs| - 1]) + cs[|cs| - 1].held
  }

  ghost function OverBytes(cs: seq<Client>): nat {
    if cs == [] then 0 else OverBytes(cs[..|cs| - 1]) + cs[|cs| - 1].over
  }

  ghost function Balance(cs: seq<Client>): int {
    if cs == [] then 0 else Balance(cs[..|cs| - 1]) + cs[|cs| - 1].Net()
  }

  lemma {:induction false} BalanceUpdate(cs: seq<Client>, n: nat, c: Client)
    requires n < |cs|
    ensures Balance(cs[n := c]) == Balance(cs) - cs[n].Net() + c.Net()
  {
    var m := |cs| - 1;
    if n < m {
      BalanceUpdate(cs[..m], n, c);
      assert cs[n := c][..m] == cs[..m][n := c];
    } else {
      assert cs[n := c][..m] == cs[..m];
    }
  }

  lemma {:induction false} BalanceStarts(cs: seq<Client>)
    requires forall n | 0 <= n < |cs| :: cs[n] == Client(0, 0, Ready)
    ensures Balance(cs) == 0
  {
    if cs != [] { BalanceStarts(cs[..|cs| - 1]); }
  }

  lemma {:induction false} BalanceIs(cs: seq<Client>)
    ensures Balance(cs) >= HeldBytes(cs) - OverBytes(cs)
  {
    if cs != [] { BalanceIs(cs[..|cs| - 1]); }
  }

  /** No step takes more out of the counter than out of the client's balance. */
  lemma OwnFall(used: int, budget: nat, c: Client, a: Action)
    requires Enabled(c, a) && (c.pc.Freeing? ==> c.pc.amount <= c.pc.own + c.pc.extra)
    ensures UsedAfter(used, c, a) - used >= ClientAfter(used, budget, c, a).Net() - c.Net()
  {
  }

  /** A free in progress subtracts no more than was asked for. */
  ghost predicate FreesAsked(s: Ledger) {
    forall n | 0 <= n < |s.clients| && s.clients[n].pc.Freeing? :: s.clients[n].pc.amount <= s.clients[n].pc.own + s.clients[n].pc.extra
  }

  lemma StepFalls(s: Ledger, n: nat, a: Action, s': Ledger)
    requires Step(s, n, a, s') && FreesAsked(s) && s.used >= Balance(s.clients)
    ensures FreesAsked(s') && s'.used >= Balance(s'.clients)
  {
    hide Balance;
    OwnFall(s.used, s.budget, s.clients[n], a);
    BalanceUpdate(s.clients, n, ClientAfter(s.used, s.budget, s.clients[n], a));
  }

  lemma {:induction false} RunFalls(ss: seq<Ledger>, i: nat)
    requires Execution(ss) && i < |ss|
    ensures FreesAsked(ss[i]) && ss[i].used >= Balance(ss[i].clients)
  {
    hide Step, FreesAsked, Balance;
    if i == 0 {
      StartFalls(ss[0]);
    } else {
      RunFalls(ss, i - 1);
      assert Next(ss[i - 1], ss[i]);
      var n: nat, a :| Step(ss[i - 1], n, a, ss[i]);
      StepFalls(ss[i - 1], n, a, ss[i]);
    }
  }

  lemma StartFalls(s: Ledger)
    requires Init(s)
    ensures FreesAsked(s) && s.used >= Balance(s.clients)
  {
    BalanceStarts(s.clients);
  }

  /** At every moment of every interleaving the counter is at most the bytes freed without being held
      below the bytes held. */
  lemma FallBounded(ss: seq<Ledger>, i: nat)
    requires Execution(ss) && i < |ss|
    ensures ss[i].used >= HeldBytes(ss[i].clients) - OverBytes(ss[i].clients)
  {
    hide Execution;
    RunFalls(ss, i);
    BalanceIs(ss[i].clients);
  }

  // ----- the bound is reached, and the counter can pass zero

  /** One client holds `held` bytes that fill the budget; two others are refused `bytes` each and free them,
      both loading the counter before either subtracts. */
  function Overlap(held: nat, bytes: nat): seq<Ledger> {
    var c, a := Client(0, 0, Ready), Client(held, 0, Ready);
    var added, refusing := c.(pc := Added(bytes, held)), c.(pc := Refusing(bytes));
    var freeing, over := c.(pc := Freeing(0, bytes, bytes)), c.(over := bytes);
    [Ledger(0, held, [c, c, c]),
     Ledger(held, held, [a, c, c]),
     Ledger(held + bytes, held, [a, added, c]), Ledger(held + bytes, held, [a, refusing, c]), Ledger(held, held, [a, c, c]),
     Ledger(held + bytes, held, [a, c, added]), Ledger(held + bytes, held, [a, c, refusing]), Ledger(held, held, [a, c, c]),
     Ledger(held, held, [a, freeing, c]), Ledger(held, held, [a, freeing, freeing]),
     Ledger(held - bytes, held, [a, over, freeing]), Ledger(held - 2 * bytes, held, [a, over, over])]
  }

  lemma OverlapRefused(held: nat, bytes: nat)
    requires 0 < bytes <= held
    ensures var ss := Overlap(held, bytes); forall i | 0 <= i < 7 :: Next(ss[i], ss[i + 1])
  {
    var ss := Overlap(held, bytes);
    assert Step(ss[0], 0, Force(held), ss[1]);
    assert Step(ss[1], 1, Add(bytes), ss[2]) && Step(ss[2], 1, Decide, ss[3]) && Step(ss[3], 1, Undo, ss[4]);
    assert Step(ss[4], 2, Add(bytes), ss[5]) && Step(ss[5], 2, Decide, ss[6]) && Step(ss[6], 2, Undo, ss[7]);
  }

  lemma OverlapFreed(held: nat, bytes: nat)
    requires 0 < bytes <= held
    ensures var ss := Overlap(held, bytes); forall i | 7 <= i < 11 :: Next(ss[i], ss[i + 1])
  {
    var ss := Overlap(held, bytes);
    assert Step(ss[7], 1, Load(0, bytes, held), ss[8]) && Step(ss[8], 2, Load(0, bytes, held), ss[9]);
    assert Step(ss[9], 1, Subtract, ss[10]) && Step(ss[10], 2, Subtract, ss[11]);
  }

  lemma TwoOverFrees(held: nat, bytes: nat) returns (ss: seq<Ledger>)
    requires 0 < bytes <= held
    ensures Execution(ss) && |ss| == 12
    ensures var s := ss[11];
            && HeldBytes(s.clients) == held && OverBytes(s.clients) == 2 * bytes
            && s.used == held - 2 * bytes && (s.used < 0 <==> held < 2 * bytes)
  {
    hide Next;
    ss := Overlap(held, bytes);
    OverlapRefused(held, bytes);
    OverlapFreed(held, bytes);
    SumsOfThree(ss[11].clients);
  }

  lemma SumsOfThree(cs: seq<Client>)
    requires |cs| == 3
    ensures HeldBytes(cs) == cs[0].held + cs[1].held + cs[2].held && OverBytes(cs) == cs[0].over + cs[1].over + cs[2].over
  {
    assert cs[..2][..1][..0] == [];
    assert HeldBytes(cs[..2][..1]) == cs[0].held && OverBytes(cs[..2][..1]) == cs[0].over;
    assert HeldBytes(cs[..2]) == cs[0].held + cs[1].held && OverBytes(cs[..2]) == cs[0].over + cs[1].over;
  }
}
