/** The last phase of the tree engines: one more pass for the exact utilities of the candidates, and
    the output of those that reach the threshold (src/mining/algorithms/ihup.rs, up_growth.rs). */
module CandidateCheck {
  import opened Huim
  import opened Options
  import opened PageLayout
  import opened Output

  /** A transaction as a map from item to utility. */
  method ItemUtilities(t: Transaction) returns (m: map<ItemId, int>)
    requires DistinctItems(t.items)
    ensures m.Keys == ItemsOf(t.items) && forall x | x in m :: m[x] == UtilityIn(t.items, {x})
  {
    m := map[];
    var es := t.items;
    for k := 0 to |es|
      invariant forall x :: x in m <==> exists i :: 0 <= i < k && es[i].item == x
      invariant forall x | x in m :: m[x] == UtilityIn(es, {x})
    {
      UtilityInSingle(es, k);
      m := m[es[k].item := es[k].utility];
    }
    forall x ensures x in m <==> x in ItemsOf(es) {
      if x in m {
        var i :| 0 <= i < |es| && es[i].item == x;
        assert es[i] in es;
      }
      if x in ItemsOf(es) { var i := ItemAt(es, x); }
    }
  }

  /** The utility of one candidate in one transaction, or nothing at the first item that is missing. */
  method CandidateUtility(ghost t: Transaction, utilities: map<ItemId, int>, cand: seq<ItemId>) returns (r: Option<int>)
    requires Distinct(cand) && utilities.Keys == ItemsOf(t.items)
    requires forall x | x in utilities :: utilities[x] == UtilityIn(t.items, {x})
    ensures r.Some? <==> Elems(cand) <= ItemsOf(t.items)
    ensures r.Some? ==> r.value == UtilityIn(t.items, Elems(cand))
  {
    var util := 0;
    UtilityInEmpty(t.items);
    assert Elems(cand[..0]) == {};
    for j := 0 to |cand|
      invariant Elems(cand[..j]) <= ItemsOf(t.items) && util == UtilityIn(t.items, Elems(cand[..j]))
    {
      var x := cand[j];
      assert cand[..j + 1] == cand[..j] + [x];
      assert Elems(cand[..j + 1]) == Elems(cand[..j]) + {x};
      if x !in utilities {
        assert x in Elems(cand);
        return None;
      }
      UtilityInAdditive(t.items, Elems(cand[..j]), {x});
      util := util + utilities[x];
    }
    assert cand[..|cand|] == cand;
    r := Some(util);
  }

  /** One pass over the database adds up every candidate's exact utility. */
  method SumUtilities(db: Database, cands: seq<seq<ItemId>>) returns (utils: seq<int>)
    requires ValidDatabase(db) && forall i | 0 <= i < |cands| :: Distinct(cands[i])
    ensures |utils| == |cands| && forall i | 0 <= i < |cands| :: utils[i] == Utility(db, Elems(cands[i]))
  {
    utils := seq(|cands|, _ => 0);
    for n := 0 to |db|
      invariant |utils| == |cands| && forall i | 0 <= i < |cands| :: utils[i] == Utility(db[..n], Elems(cands[i]))
    {
      assert ValidTransaction(db[n]);
      var m := ItemUtilities(db[n]);
      for i := 0 to |cands|
        invariant |utils| == |cands|
        invariant forall j | 0 <= j < i :: utils[j] == Utility(db[..n + 1], Elems(cands[j]))
        invariant forall j | i <= j < |cands| :: utils[j] == Utility(db[..n], Elems(cands[j]))
      {
        var u := CandidateUtility(db[n], m, cands[i]);
        PrefixStep(db, n, Elems(cands[i]), Elems(cands[i]));
        if u.Some? { utils := utils[i := utils[i] + u.value]; }
      }
    }
    assert db[..|db|] == db;
  }

  ghost predicate Listed(cands: seq<seq<ItemId>>, n: nat, X: ItemSet)
    requires n <= |cands|
  {
    exists j :: 0 <= j < n && Elems(cands[j]) == X
  }

  /** The candidates among the first n that reach the threshold. */
  ghost function Reaching(db: Database, min: int, cands: seq<seq<ItemId>>, n: nat): iset<ItemSet>
    requires n <= |cands|
  {
    iset X: ItemSet | Listed(cands, n, X) && Utility(db, X) >= min
  }

  lemma ReachingNext(db: Database, min: int, cands: seq<seq<ItemId>>, n: nat, F: iset<ItemSet>)
    requires n < |cands| && Lists(cands, F)
    ensures Reaching(db, min, cands, n + 1) ==
            Reaching(db, min, cands, n) + (if Utility(db, Elems(cands[n])) >= min then iset{Elems(cands[n])} else iset{})
    ensures Elems(cands[n]) !in Reaching(db, min, cands, n)
  {
    forall X ensures Listed(cands, n + 1, X) <==> Listed(cands, n, X) || X == Elems(cands[n]) {
      if Listed(cands, n, X) {
        var j :| 0 <= j < n && Elems(cands[j]) == X;
        assert 0 <= j < n + 1;
      }
      assert 0 <= n < n + 1;
    }
  }

  /** The result tasks: the candidates that reach the threshold. */
  method ResultTasks(ghost db: Database, min: int, cands: seq<seq<ItemId>>, utils: seq<int>, ghost F: iset<ItemSet>)
    returns (tasks: seq<Hui>)
    requires Lists(cands, F) && |utils| == |cands| && forall i | 0 <= i < |cands| :: utils[i] == Utility(db, Elems(cands[i]))
    ensures Emits(db, tasks, iset X | X in F && Utility(db, X) >= min)
  {
    hide Emits, Lists;
    tasks := [];
    EmitsNothing(db);
    assert Reaching(db, min, cands, 0) == iset{};
    for i := 0 to |cands|
      invariant Emits(db, tasks, Reaching(db, min, cands, i))
    {
      ReachingNext(db, min, cands, i, F);
      if utils[i] >= min {
        ListedDistinct(cands, F, i);
        EmitsSingle(db, Hui(cands[i], utils[i]));
        EmitsConcat(db, tasks, Reaching(db, min, cands, i), [Hui(cands[i], utils[i])], iset{Elems(cands[i])});
        tasks := tasks + [Hui(cands[i], utils[i])];
      } else {
        assert Reaching(db, min, cands, i + 1) == Reaching(db, min, cands, i);
      }
    }
    AllListed(cands, F);
    assert Reaching(db, min, cands, |cands|) == iset X | X in F && Utility(db, X) >= min;
  }

  lemma ListedDistinct(cands: seq<seq<ItemId>>, F: iset<ItemSet>, i: nat)
    requires Lists(cands, F) && i < |cands|
    ensures Distinct(cands[i])
  {
  }

  lemma AllListed(cands: seq<seq<ItemId>>, F: iset<ItemSet>)
    requires Lists(cands, F)
    ensures forall X :: Listed(cands, |cands|, X) <==> X in F
  {
  }

  /** Writes the tasks, in the order some schedule of workers runs them. A failed write drops its line. */
  method WriteTasks(ghost db: Database, ghost F: iset<ItemSet>, tasks: seq<Hui>, out: ResultWriter)
    returns (ghost found: seq<Hui>)
    requires Emits(db, tasks, F)
    modifies out
    ensures out.huis == old(out.huis) + found && out.Lost() >= old(out.Lost())
    ensures Reports(db, found, F, out.Lost() == old(out.Lost())) && |found| <= |tasks|
    ensures out.Lost() == old(out.Lost()) ==> found == tasks
  {
    hide Emits, Reports, Tasked;
    found := [];
    ReportsNothing(db, Tasked(tasks, 0));
    for i := 0 to |tasks|
      invariant out.huis == old(out.huis) + found && out.Lost() >= old(out.Lost())
      invariant out.Lost() == old(out.Lost()) ==> found == tasks[..i]
      invariant Reports(db, found, Tasked(tasks, i), false) && |found| <= i
    {
      var w := out.WriteHui(tasks[i].itemset, tasks[i].utility);
      TaskedNext(db, F, tasks, i, found);
      if w.Ok? { found := found + [tasks[i]]; }
    }
    TaskedAll(db, F, tasks, found);
    if out.Lost() == old(out.Lost()) {
      assert found == tasks;
      EmitsReports(db, tasks, F);
    }
  }

  /** The itemsets of the first i tasks. */
  ghost function Tasked(tasks: seq<Hui>, i: nat): iset<ItemSet>
    requires i <= |tasks|
  {
    iset X | Listed(Itemsets(tasks), i, X)
  }

  lemma TaskedNext(db: Database, F: iset<ItemSet>, tasks: seq<Hui>, i: nat, found: seq<Hui>)
    requires Emits(db, tasks, F) && i < |tasks| && Reports(db, found, Tasked(tasks, i), false)
    ensures Reports(db, found, Tasked(tasks, i + 1), false) && Reports(db, found + [tasks[i]], Tasked(tasks, i + 1),
                    false)
  {
    hide Reports;
    var X := Elems(Itemsets(tasks)[i]);
    assert Tasked(tasks, i + 1) == Tasked(tasks, i) + iset{X};
    ReportsLess(db, found, Tasked(tasks, i), false, Tasked(tasks, i + 1));
    EmitsSingle(db, tasks[i]);
    EmitsReports(db, [tasks[i]], iset{X});
    ReportsConcat(db, found, Tasked(tasks, i), false, [tasks[i]], iset{X}, true);
  }

  lemma TaskedAll(db: Database, F: iset<ItemSet>, tasks: seq<Hui>, found: seq<Hui>)
    requires Emits(db, tasks, F) && Reports(db, found, Tasked(tasks, |tasks|), false)
    ensures Reports(db, found, F, false)
  {
    hide Reports;
    AllListed(Itemsets(tasks), F);
    ReportsLess(db, found, Tasked(tasks, |tasks|), false, F);
  }

  /** 8 bytes for every item of every candidate. */
  function CandidateBytes(cands: seq<seq<ItemId>>): nat {
    if cands == [] then 0 else CandidateBytes(cands[..|cands| - 1]) + 8 * |cands[|cands| - 1]|
  }

  lemma {:induction false} CandidateBytesConcat(a: seq<seq<ItemId>>, b: seq<seq<ItemId>>)
    ensures CandidateBytes(a + b) == CandidateBytes(a) + CandidateBytes(b)
  {
    if b == [] {
      assert a + b == a;
    } else {
      assert (a + b)[..|a + b| - 1] == a + b[..|b| - 1];
      CandidateBytesConcat(a, b[..|b| - 1]);
    }
  }

  lemma CandidatesDistinct(cands: seq<seq<ItemId>>, F: iset<ItemSet>)
    requires Lists(cands, F)
    ensures forall i | 0 <= i < |cands| :: Distinct(cands[i])
  {
  }

  lemma NoBytes()
    ensures CandidateBytes([]) == 0
  {
  }

  lemma OneCandidate(c: seq<ItemId>)
    ensures CandidateBytes([c]) == 8 * |c|
  {
    assert [c][..0] == [];
  }

  /** What phase 1 must list: the supported itemsets whose TWU reaches the threshold. */
  ghost function TwuHeavy(db: Database, min: int): iset<ItemSet> {
    iset X: ItemSet | X != {} && Supported(db, X) && Twu(db, X) >= min
  }

  lemma HeavyHasHuis(db: Database, min: int)
    requires ValidDatabase(db)
    ensures (iset X | X in TwuHeavy(db, min) && Utility(db, X) >= min) == Huis(db, min)
  {
    forall X | IsHui(db, min, X) ensures X in TwuHeavy(db, min) {
      HuiSubsetTwu(db, min, X, X);
    }
  }
}
