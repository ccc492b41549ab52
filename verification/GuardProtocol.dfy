/** The byte ledger shared by many threads: try_alloc, force_alloc and free as the separate atomic
    operations they consist of (src/mining/core/memory_guard.rs). */
module GuardProtocol {

  /** Where a client is inside a call. */
  datatype Pc =
    | Ready
    // try_alloc has added bytes to the counter and saw prev before that.
    | Added(bytes: nat, prev: nat)
    // try_alloc found the sum above the budget and still has to take the bytes back.
    | Refusing(bytes: nat)
    // free has loaded the counter and will subtract amount for the g granted and f forced bytes it releases.
    | Freeing(g: nat, f: nat, amount: nat)

  /** A client, the bytes it was granted and forced and has not freed, and the least value the counter
      has had since the client's last operation on it: what a relaxed load may still return. */
  datatype Client = Client(granted: nat, forced: nat, pc: Pc, low: nat)
  {
    function Held(): nat {
      granted + forced
    }

    /** Bytes in the counter on behalf of a call that is not decided or not undone. */
    function InFlight(): nat {
      match pc
      case Added(b, _) => b
      case Refusing(b) => b
      case _ => 0
    }
  }

  datatype Ledger = Ledger(used: nat, budget: nat, clients: seq<Client>)

  function Min(a: nat, b: nat): (r: nat)
    ensures r <= a && r <= b && (r == a || r == b)
  {
    if a < b then a else b
  }

  // ----- sums over clients

  ghost function Counted(cs: seq<Client>): nat {
    if cs == [] then 0 else Counted(cs[..|cs| - 1]) + cs[|cs| - 1].Held() + cs[|cs| - 1].InFlight()
  }

  /** The bytes a call that saw prev will be granted. */
  ghost function Accepted(c: Client, budget: nat): nat {
    c.granted + if c.pc.Added? && c.pc.prev + c.pc.bytes <= budget then c.pc.bytes else 0
  }

  ghost function AcceptedBytes(cs: seq<Client>, budget: nat): nat {
    if cs == [] then 0 else AcceptedBytes(cs[..|cs| - 1], budget) + Accepted(cs[|cs| - 1], budget)
  }

  lemma {:induction false} CountedUpdate(cs: seq<Client>, n: nat, c: Client)
    requires n < |cs|
    ensures Counted(cs[n := c]) == Counted(cs) - cs[n].Held() - cs[n].InFlight() + c.Held() + c.InFlight()
    ensures Counted(cs) >= cs[n].Held() + cs[n].InFlight()
  {
    var m := |cs| - 1;
    if n < m {
      CountedUpdate(cs[..m], n, c);
      assert cs[n := c][..m] == cs[..m][n := c];
    } else {
      assert cs[n := c][..m] == cs[..m];
    }
  }

  lemma {:induction false} AcceptedUpdate(cs: seq<Client>, budget: nat, n: nat, c: Client)
    requires n < |cs|
    ensures AcceptedBytes(cs[n := c], budget) == AcceptedBytes(cs, budget) - Accepted(cs[n], budget) + Accepted(c, budget)
    ensures AcceptedBytes(cs, budget) >= Accepted(cs[n], budget)
  {
    var m := |cs| - 1;
    if n < m {
      AcceptedUpdate(cs[..m], budget, n, c);
      assert cs[n := c][..m] == cs[..m][n := c];
    } else {
      assert cs[n := c][..m] == cs[..m];
    }
  }

  lemma {:induction false} AcceptedBelowCounted(cs: seq<Client>, budget: nat)
    ensures AcceptedBytes(cs, budget) <= Counted(cs)
  {
    if cs != [] { AcceptedBelowCounted(cs[..|cs| - 1], budget); }
  }

  // ----- atomic steps

  datatype Action =
    | Add(bytes: nat)
    | Decide
    | Undo
    | Force(bytes: nat)
    // free(g + f), whose load returns `seen`.
    | Load(g: nat, f: nat, seen: nat)
    | Subtract

  /** A step is possible for this client. A free releases only what the client holds, and its load
      returns a value no older than the client's own last operation. */
  predicate Enabled(c: Client, a: Action) {
    match a
    case Add(_) => c.pc.Ready?
    case Decide => c.pc.Added?
    case Undo => c.pc.Refusing?
    case Force(_) => c.pc.Ready?
    case Load(g, f, seen) => c.pc.Ready? && g <= c.granted && f <= c.forced && seen >= c.low
    case Subtract => c.pc.Freeing?
  }

  /** The counter after the step. fetch_sub of more than is there would wrap; Exact below shows that no
      run gets there. */
  function UsedAfter(used: nat, c: Client, a: Action): int {
    match a
    case Add(b) => used + b
    case Decide => used
    case Undo => if c.pc.Refusing? then used - c.pc.bytes else used
    case Force(b) => used + b
    case Load(_, _, _) => used
    case Subtract => if c.pc.Freeing? then used - c.pc.amount else used
  }

  function ClientAfter(used: nat, budget: nat, c: Client, a: Action): Client
    requires Enabled(c, a)
  {
    match a
    case Add(b) => c.(pc := Added(b, used), low := used + b)
    case Decide =>
      if c.pc.prev + c.pc.bytes > budget then c.(pc := Refusing(c.pc.bytes)) else c.(pc := Ready, granted := c.granted + c.pc.bytes)
    case Undo => c.(pc := Ready, low := if c.pc.bytes <= used then used - c.pc.bytes else 0)
    case Force(b) => c.(forced := c.forced + b, low := used + b)
    case Load(g, f, seen) => c.(pc := Freeing(g, f, Min(g + f, seen)))
    case Subtract =>
      Client(if c.pc.g <= c.granted then c.granted - c.pc.g else 0, if c.pc.f <= c.forced then c.forced - c.pc.f else 0, Ready,
             if c.pc.amount <= used then used - c.pc.amount else 0)
  }

  /** Everyone else may now see the new counter value. */
  function Witnessed(cs: seq<Client>, n: nat, used: nat): (r: seq<Client>)
    ensures |r| == |cs| && forall m | 0 <= m < |cs| :: r[m] == if m == n then cs[m] else cs[m].(low := Min(cs[m].low, used))
  {
    seq(|cs|, m requires 0 <= m < |cs| => if m == n then cs[m] else cs[m].(low := Min(cs[m].low, used)))
  }

  ghost predicate Step(s: Ledger, n: nat, a: Action, s': Ledger) {
    && n < |s.clients| && Enabled(s.clients[n], a)
    && s'.used == UsedAfter(s.used, s.clients[n], a) && s'.budget == s.budget
    && s'.clients == Witnessed(s.clients[n := ClientAfter(s.used, s.budget, s.clients[n], a)], n, s'.used)
  }

  ghost function After(s: Ledger, n: nat, a: Action): Ledger
    requires n < |s.clients| && Enabled(s.clients[n], a) && UsedAfter(s.used, s.clients[n], a) >= 0
  {
    var used: nat := UsedAfter(s.used, s.clients[n], a);
    Ledger(used, s.budget, Witnessed(s.clients[n := ClientAfter(s.used, s.budget, s.clients[n], a)], n, used))
  }

  /** What the steps add up to when nobody interferes: try_alloc takes the bytes exactly if they fit, and
      otherwise leaves counter and client as they were. */
  lemma TryAllocAlone(s: Ledger, n: nat, bytes: nat)
    requires n < |s.clients| && s.clients[n].pc.Ready?
    ensures var c, t := s.clients[n], After(s, n, Add(bytes));
            var u := After(t, n, Decide);
            && Step(s, n, Add(bytes), t) && Step(t, n, Decide, u)
            && if s.used + bytes <= s.budget then
                 && u.used == s.used + bytes && u.clients[n].pc.Ready?
                 && u.clients[n].granted == c.granted + bytes && u.clients[n].forced == c.forced
               else
                 var v := After(u, n, Undo);
                 && Step(u, n, Undo, v) && v.used == s.used && v.clients[n].pc.Ready?
                 && v.clients[n].granted == c.granted && v.clients[n].forced == c.forced
  {
  }

  /** And free gives back what the client names of what it holds. */
  lemma FreeAlone(s: Ledger, n: nat, g: nat, f: nat)
    requires n < |s.clients| && s.clients[n].pc.Ready? && s.clients[n].low <= s.used && g + f <= s.used
    requires g <= s.clients[n].granted && f <= s.clients[n].forced
    ensures var c, t := s.clients[n], After(s, n, Load(g, f, s.used));
            var u := After(t, n, Subtract);
            && Step(s, n, Load(g, f, s.used), t) && Step(t, n, Subtract, u)
            && u.used == s.used - (g + f) && u.clients[n] == Client(c.granted - g, c.forced - f, Ready, u.used)
  {
  }

  predicate IsNew(c: Client) {
    c.granted == 0 && c.forced == 0 && c.pc.Ready? && c.low == 0
  }

  ghost predicate Init(s: Ledger) {
    s.used == 0 && forall n | 0 <= n < |s.clients| :: IsNew(s.clients[n])
  }

  ghost predicate Execution(ss: seq<Ledger>) {
    ss != [] && Init(ss[0]) && forall i | 0 <= i < |ss| - 1 :: Next(ss[i], ss[i + 1])
  }

  ghost predicate Next(s: Ledger, s': Ledger) {
    exists n: nat, a :: Step(s, n, a, s')
  }

  // ----- the invariant

  /** What is visible to a client is at least what it holds, and a free in progress will subtract
      exactly what it releases. */
  ghost predicate ClientOk(c: Client) {
    && c.Held() + c.InFlight() <= c.low
    && (c.pc.Freeing? ==> c.pc.g <= c.granted && c.pc.f <= c.forced && c.pc.amount == c.pc.g + c.pc.f)
  }

  /** The counter is exactly the bytes held plus the bytes in flight, and what is granted or about to be
      granted never exceeds the budget. */
  ghost predicate Exact(s: Ledger) {
    && s.used == Counted(s.clients)
    && AcceptedBytes(s.clients, s.budget) <= s.budget
    && (forall n | 0 <= n < |s.clients| :: ClientOk(s.clients[n]))
  }

  lemma {:induction false} WitnessedSums(cs: seq<Client>, n: nat, used: nat, budget: nat)
    ensures Counted(Witnessed(cs, n, used)) == Counted(cs)
    ensures AcceptedBytes(Witnessed(cs, n, used), budget) == AcceptedBytes(cs, budget)
  {
    if cs != [] {
      WitnessedSums(cs[..|cs| - 1], n, used, budget);
      assert Witnessed(cs, n, used)[..|cs| - 1] == Witnessed(cs[..|cs| - 1], n, used);
    }
  }

  lemma {:induction false} NothingHeld(cs: seq<Client>, n: nat, budget: nat)
    requires n <= |cs| && forall k | 0 <= k < |cs| :: IsNew(cs[k])
    ensures Counted(cs[..n]) == 0 && AcceptedBytes(cs[..n], budget) == 0
  {
    hide Counted, AcceptedBytes, Accepted, IsNew;
    if n == 0 {
      NothingCounted(budget);
      assert cs[..n] == [];
    } else {
      NothingHeld(cs, n - 1, budget);
      NewHoldsNothing(cs[n - 1]);
      NewHasNothingInFlight(cs[n - 1]);
      NewIsPromisedNothing(cs[n - 1], budget);
      CountedSnoc(cs[..n - 1], cs[n - 1], budget);
      assert cs[..n] == cs[..n - 1] + [cs[n - 1]];
    }
  }

  lemma NothingCounted(budget: nat)
    ensures Counted([]) == 0 && AcceptedBytes([], budget) == 0
  {
  }

  lemma NewHoldsNothing(c: Client)
    requires IsNew(c)
    ensures c.Held() == 0
  {
  }

  lemma NewHasNothingInFlight(c: Client)
    requires IsNew(c)
    ensures c.InFlight() == 0
  {
  }

  lemma NewIsPromisedNothing(c: Client, budget: nat)
    requires IsNew(c)
    ensures Accepted(c, budget) == 0
  {
  }

  lemma NewIsOk(c: Client)
    requires IsNew(c)
    ensures ClientOk(c)
  {
  }

  lemma CountedSnoc(cs: seq<Client>, c: Client, budget: nat)
    ensures Counted(cs + [c]) == Counted(cs) + c.Held() + c.InFlight()
    ensures AcceptedBytes(cs + [c], budget) == AcceptedBytes(cs, budget) + Accepted(c, budget)
  {
    assert (cs + [c])[..|cs|] == cs;
  }

  /** What a step does to the client that takes it: the counter moves by exactly the client's bytes. */
  lemma OwnStep(used: nat, budget: nat, c: Client, a: Action)
    requires ClientOk(c) && Enabled(c, a) && c.Held() + c.InFlight() <= used
    ensures var c' := ClientAfter(used, budget, c, a);
            && ClientOk(c')
            && c'.Held() + c'.InFlight() - c.Held() - c.InFlight() == UsedAfter(used, c, a) - used
            && (Accepted(c', budget) > Accepted(c, budget) ==> a.Add? && used + a.bytes <= budget)
            && (a.Undo? ==> UsedAfter(used, c, a) == used - c.pc.bytes && c'.Held() == c.Held())
            && (a.Subtract? ==> UsedAfter(used, c, a) == used - c.pc.g - c.pc.f && c'.granted == c.granted - c.pc.g && c'.forced == c.forced - c.pc.f)
  {
  }

  lemma StepExact(s: Ledger, n: nat, a: Action, s': Ledger)
    requires Exact(s) && Step(s, n, a, s')
    ensures Exact(s')
  {
    hide Counted, AcceptedBytes, Accepted, ClientAfter, UsedAfter, ClientOk, Witnessed;
    var c := s.clients[n];
    var c' := ClientAfter(s.used, s.budget, c, a);
    CountedUpdate(s.clients, n, c');
    AcceptedUpdate(s.clients, s.budget, n, c');
    OwnStep(s.used, s.budget, c, a);
    var cs := s.clients[n := c'];
    WitnessedSums(cs, n, s'.used, s.budget);
    AcceptedBelowCounted(cs, s.budget);
    AddedWithin(s.used, c, a);
    forall m | 0 <= m < |cs| ensures ClientOk(s'.clients[m]) {
      if m != n {
        CountedBoth(cs, n, m);
        OthersOk(cs[m], s'.used);
      }
    }
  }

  lemma AddedWithin(used: nat, c: Client, a: Action)
    ensures a.Add? ==> UsedAfter(used, c, a) == used + a.bytes
  {
  }

  lemma OthersOk(c: Client, used: nat)
    requires ClientOk(c) && c.Held() + c.InFlight() <= used
    ensures ClientOk(c.(low := Min(c.low, used)))
  {
  }

  /** Two clients' bytes are both in the counter. */
  lemma {:induction false} CountedBoth(cs: seq<Client>, n: nat, m: nat)
    requires n < |cs| && m < |cs| && n != m
    ensures Counted(cs) >= cs[n].Held() + cs[n].InFlight() + cs[m].Held() + cs[m].InFlight()
  {
    var k := |cs| - 1;
    if n < k && m < k {
      CountedBoth(cs[..k], n, m);
    } else if n < k {
      CountedUpdate(cs[..k], n, cs[n]);
    } else {
      CountedUpdate(cs[..k], m, cs[m]);
    }
  }

  /** At every moment of every interleaving the counter is exact and the granted bytes fit the budget. */
  lemma {:induction false} RunExact(ss: seq<Ledger>, i: nat)
    requires Execution(ss) && i < |ss|
    ensures Exact(ss[i])
  {
    hide Step, Exact;
    if i == 0 {
      InitExact(ss[0]);
    } else {
      RunExact(ss, i - 1);
      assert Next(ss[i - 1], ss[i]);
      var n: nat, a :| Step(ss[i - 1], n, a, ss[i]);
      StepExact(ss[i - 1], n, a, ss[i]);
    }
  }

  lemma InitExact(s: Ledger)
    requires Init(s)
    ensures Exact(s)
  {
    hide IsNew, Counted, AcceptedBytes, ClientOk;
    NothingHeld(s.clients, |s.clients|, s.budget);
    assert s.clients[..|s.clients|] == s.clients;
    forall n | 0 <= n < |s.clients| ensures ClientOk(s.clients[n]) {
      NewIsOk(s.clients[n]);
    }
  }

  ghost function HeldBytes(cs: seq<Client>): nat {
    if cs == [] then 0 else HeldBytes(cs[..|cs| - 1]) + cs[|cs| - 1].Held()
  }

  lemma {:induction false} QuietCount(cs: seq<Client>)
    requires forall n | 0 <= n < |cs| :: cs[n].pc.Ready?
    ensures Counted(cs) == HeldBytes(cs)
  {
    if cs != [] { QuietCount(cs[..|cs| - 1]); }
  }

  /** When no call is in progress, the counter is the bytes held, to the byte: refusals and the gap
      between load and subtract have left no trace. */
  lemma QuietLedger(ss: seq<Ledger>, i: nat)
    requires Execution(ss) && i < |ss| && forall n | 0 <= n < |ss[i].clients| :: ss[i].clients[n].pc.Ready?
    ensures ss[i].used == HeldBytes(ss[i].clients)
  {
    RunExact(ss, i);
    QuietCount(ss[i].clients);
  }

  /** Nothing is granted beyond the budget, and a free takes out of the counter exactly the bytes it
      gives back, whatever value its load returned. */
  lemma FreeIsExact(ss: seq<Ledger>, i: nat, n: nat, s': Ledger)
    requires Execution(ss) && i < |ss| && Step(ss[i], n, Subtract, s')
    ensures var pc := ss[i].clients[n].pc;
            s'.used == ss[i].used - (pc.g + pc.f) && s'.clients[n].Held() == ss[i].clients[n].Held() - (pc.g + pc.f)
    ensures AcceptedBytes(s'.clients, s'.budget) <= s'.budget
  {
    hide Counted, AcceptedBytes, Accepted;
    RunExact(ss, i);
    var s := ss[i];
    assert ClientOk(s.clients[n]);
    CountedUpdate(s.clients, n, s.clients[n]);
    OwnStep(s.used, s.budget, s.clients[n], Subtract);
    StepExact(s, n, Subtract, s');
  }

  /** A step of another client leaves everything of this one but `low`, and nobody changes the budget. */
  lemma OtherStep(s: Ledger, m: nat, a: Action, s': Ledger, n: nat)
    requires Step(s, m, a, s') && n < |s'.clients|
    ensures |s.clients| == |s'.clients| && s'.budget == s.budget
    ensures m != n ==> s'.clients[n] == s.clients[n].(low := s'.clients[n].low)
    ensures m == n && s'.clients[n].pc.Added? ==>
              a.Add? && s'.clients[n] == s.clients[n].(pc := Added(a.bytes, s.used), low := s'.clients[n].low)
  {
  }

  /** Every addition that is waiting for its comparison was made at some earlier moment i, saw the counter
      of that moment, and since then only other clients have moved. */
  lemma {:induction false} AddedFrom(ss: seq<Ledger>, j: nat, n: nat) returns (i: nat)
    requires Execution(ss) && j < |ss| && n < |ss[j].clients| && ss[j].clients[n].pc.Added?
    ensures i < j && |ss[i].clients| == |ss[i + 1].clients| == |ss[j].clients| && ss[i].budget == ss[j].budget
    ensures Step(ss[i], n, Add(ss[j].clients[n].pc.bytes), ss[i + 1])
    ensures ss[j].clients[n].pc.prev == ss[i].used
    ensures ss[j].clients[n].granted == ss[i].clients[n].granted && ss[j].clients[n].forced == ss[i].clients[n].forced
  {
    hide Step, IsNew;
    if j == 0 {
      assert IsNew(ss[0].clients[n]);
      NewIsReady(ss[0].clients[n]);
    } else {
      assert Next(ss[j - 1], ss[j]);
      var m: nat, a :| Step(ss[j - 1], m, a, ss[j]);
      OtherStep(ss[j - 1], m, a, ss[j], n);
      if m == n {
        i := j - 1;
      } else {
        i := AddedFrom(ss, j - 1, n);
      }
    }
  }

  lemma NewIsReady(c: Client)
    requires IsNew(c)
    ensures c.pc.Ready?
  {
  }

  /** Whatever other clients add, decide, force or free between a request's addition and its comparison:
      the request is refused exactly when it did not fit beside everything counted when it was added,
      bytes held and bytes in flight. When it is granted, all bytes counted at that moment, granted and
      forced, were within the budget together with it. */
  lemma RefusedExactlyWhenFull(ss: seq<Ledger>, j: nat, n: nat) returns (i: nat)
    requires Execution(ss) && j + 1 < |ss| && Step(ss[j], n, Decide, ss[j + 1])
    ensures i < j && n < |ss[i].clients| && n < |ss[j + 1].clients| && ss[j].clients[n].pc.Added?
    ensures var bytes := ss[j].clients[n].pc.bytes;
            && Step(ss[i], n, Add(bytes), ss[i + 1])
            && (ss[j + 1].clients[n].pc.Refusing? <==> Counted(ss[i].clients) + bytes > ss[i].budget)
            && (ss[j + 1].clients[n].pc.Ready? <==> Counted(ss[i + 1].clients) <= ss[i].budget)
            && (ss[j + 1].clients[n].pc.Ready? ==> ss[j + 1].clients[n].granted == ss[i].clients[n].granted + bytes)
            && (ss[j + 1].clients[n].pc.Refusing? ==> ss[j + 1].clients[n].Held() == ss[i].clients[n].Held())
  {
    hide Counted, AcceptedBytes, Accepted, ClientOk;
    i := AddedFrom(ss, j, n);
    RunExact(ss, i);
    RunExact(ss, i + 1);
  }

  /** So a request that would fit can be refused because of one that is itself refused: with nothing held,
      a request above the budget in flight is enough. */
  lemma SpuriousRefusal(budget: nat, big: nat, small: nat) returns (ss: seq<Ledger>)
    requires small <= budget < big
    ensures Execution(ss) && |ss| == 5 && |ss[4].clients| == 2
    ensures ss[4].budget == budget && HeldBytes(ss[4].clients) == 0
    ensures ss[4].clients[0].pc == Refusing(big) && ss[4].clients[1].pc == Refusing(small)
  {
    hide HeldBytes;
    var c := Client(0, 0, Ready, 0);
    var first := Client(0, 0, Added(big, 0), big);
    var second := Client(0, 0, Added(small, big), big + small);
    var s0 := Ledger(0, budget, [c, c]);
    var s1 := Ledger(big, budget, [first, c]);
    var s2 := Ledger(big + small, budget, [first, second]);
    var s3 := Ledger(big + small, budget, [first.(pc := Refusing(big)), second]);
    var s4 := Ledger(big + small, budget, [first.(pc := Refusing(big)), second.(pc := Refusing(small))]);
    ss := [s0, s1, s2, s3, s4];
    assert Next(s0, s1) by { assert Step(s0, 0, Add(big), s1); }
    assert Next(s1, s2) by { assert Step(s1, 1, Add(small), s2); }
    assert Next(s2, s3) by { assert Step(s2, 0, Decide, s3); }
    assert Next(s3, s4) by { assert Step(s3, 1, Decide, s4); }
    NoneHeld(s4.clients);
  }

  lemma NoneHeld(cs: seq<Client>)
    requires |cs| == 2 && cs[0].Held() == 0 && cs[1].Held() == 0
    ensures HeldBytes(cs) == 0
  {
    assert cs[..1][..0] == [];
    assert HeldBytes(cs[..1]) == 0;
  }
}
