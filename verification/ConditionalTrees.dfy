/** Why recursive mining of conditional trees is lossless: the weight a level gives to an item below a
    set of others equals, at any depth, one fixed estimate over the global paths, whatever pruning and
    re-sorting happened on the way. Shared by IHUP and UP-Growth. */
module ConditionalTrees {
  import opened Huim
  import opened TwuFilter
  import opened Bytes
  import opened WeightedPaths

  /** A whole search: the paths of the global tree, its item order, its items and the threshold. */
  datatype Search = Search(paths: seq<WPath>, key: TwuMap, items: ItemSet, min: int)

  lemma BeforeOrder(key: TwuMap, x: ItemId, y: ItemId, z: ItemId)
    ensures !Before(key, x, x)
    ensures Before(key, x, y) ==> !Before(key, y, x)
    ensures Before(key, x, y) && Before(key, y, z) ==> Before(key, x, z)
    ensures x != y ==> Before(key, x, y) || Before(key, y, x)
  {
  }

  ghost predicate IsLast(key: TwuMap, X: ItemSet, a: ItemId) {
    a in X && forall y | y in X && y != a :: Before(key, y, a)
  }

  lemma {:induction false} LastExists(key: TwuMap, X: ItemSet) returns (a: ItemId)
    requires X != {}
    ensures IsLast(key, X, a)
    decreases |X|
  {
    var x :| x in X;
    if X == {x} {
      a := x;
    } else {
      var b := LastExists(key, X - {x});
      a := if Before(key, b, x) then x else b;
      forall y | y in X && y != a ensures Before(key, y, a) {
        if y != x && y != b { assert y in X - {x}; }
      }
    }
  }

  ghost predicate Passed(L: seq<WPath>, a: ItemId, Y: ItemSet) {
    exists k :: 0 <= k < |L| && PathMatches(L[k], a, Y)
  }

  /** The fixed estimate of X: the global paths on which all of X occurs, each with the weight at X's last item. */
  ghost predicate EstimateIs(g: Search, X: ItemSet, v: int, present: bool)
    requires WellWeighted(g.paths)
  {
    forall a | IsLast(g.key, X, a) :: v == CondWeight(g.paths, a, X - {a}) && (present <==> Passed(g.paths, a, X - {a}))
  }

  /** What the search must list. */
  ghost predicate IsHeavy(g: Search, X: ItemSet)
    requires WellWeighted(g.paths)
  {
    X != {} && X <= g.items && exists a :: IsLast(g.key, X, a) && CondWeight(g.paths, a, X - {a}) >= g.min && Passed(g.paths, a, X - {a})
  }

  ghost function Heavy(g: Search): iset<ItemSet>
    requires WellWeighted(g.paths)
  {
    iset X: ItemSet | IsHeavy(g, X)
  }

  lemma HeavyEstimate(g: Search, X: ItemSet, v: int, present: bool)
    requires WellWeighted(g.paths) && X != {} && X <= g.items && EstimateIs(g, X, v, present)
    ensures IsHeavy(g, X) <==> v >= g.min && present
  {
    var a := LastExists(g.key, X);
    forall b | IsLast(g.key, X, b) ensures b == a {
      BeforeOrder(g.key, a, b, a);
    }
  }

  /** A level of the recursion: the paths of the current (conditional) tree, its own item order, its
      items, and the prefix it is conditional on. */
  ghost predicate Level(g: Search, L: seq<WPath>, key: TwuMap, E: ItemSet, P: ItemSet) {
    && WellWeighted(g.paths) && WellWeighted(L) && Load(L) <= I64_MAX
    && P !! E && P + E <= g.items
    && (forall k | 0 <= k < |L| :: SortedPath(key, L[k].items) && Elems(L[k].items) <= E)
    && (forall a | a in E :: Passed(L, a, {}))
    && (forall a, Y: ItemSet | a in E && Y <= E && (forall y | y in Y :: Before(key, y, a)) :: Measured(g, L, P, a, Y))
  }

  ghost predicate Measured(g: Search, L: seq<WPath>, P: ItemSet, a: ItemId, Y: ItemSet)
    requires WellWeighted(g.paths) && WellWeighted(L)
  {
    EstimateIs(g, P + Y + {a}, CondWeight(L, a, Y), Passed(L, a, Y))
  }

  /** The global tree is a level. */
  lemma TopLevel(g: Search)
    requires WellWeighted(g.paths) && Load(g.paths) <= I64_MAX
    requires forall k | 0 <= k < |g.paths| :: SortedPath(g.key, g.paths[k].items) && Elems(g.paths[k].items) <= g.items
    requires forall a | a in g.items :: Passed(g.paths, a, {})
    ensures Level(g, g.paths, g.key, g.items, {})
  {
    forall a, Y: ItemSet | a in g.items && Y <= g.items && (forall y | y in Y :: Before(g.key, y, a))
      ensures Measured(g, g.paths, {}, a, Y)
    {
      var X := {} + Y + {a};
      forall b | IsLast(g.key, X, b) ensures b == a && X - {b} == Y {
        BeforeOrder(g.key, a, b, a);
        assert a !in Y by { BeforeOrder(g.key, a, a, a); }
      }
    }
  }

  // ----- conditional pattern bases

  /** A conditional pattern base of item a: the same weights for every set of items above a. */
  ghost predicate Based(L: seq<WPath>, key: TwuMap, E: ItemSet, a: ItemId, cpb: seq<Cond>)
    requires WellWeighted(L)
  {
    && Weighted(cpb) && Total(cpb, {}) <= CondWeight(L, a, {})
    && (forall k, y | 0 <= k < |cpb| && y in cpb[k].path :: y in E && Before(key, y, a))
    && (forall Y: ItemSet | Y != {} :: Total(cpb, Y) == CondWeight(L, a, Y) && (Occurs(cpb, Y) <==> Passed(L, a, Y)))
  }

  ghost predicate KeptLocally(cpb: seq<Cond>, min: int, keep: ItemSet) {
    forall x :: x in keep <==> Occurs(cpb, {x}) && Total(cpb, {x}) >= min
  }

  lemma {:induction false} CondWeightMonotone(L: seq<WPath>, a: ItemId, Y: ItemSet, Z: ItemSet)
    requires WellWeighted(L) && Y <= Z
    ensures 0 <= CondWeight(L, a, Z) <= CondWeight(L, a, Y) <= Load(L)
    ensures Passed(L, a, Z) ==> Passed(L, a, Y)
  {
    if L != [] {
      assert WellFormed(L[|L| - 1]);
      CondWeightMonotone(L[..|L| - 1], a, Y, Z);
    }
    if Passed(L, a, Z) {
      var k :| 0 <= k < |L| && PathMatches(L[k], a, Z);
      assert PathMatches(L[k], a, Y);
    }
  }

  lemma {:induction false} UniformLoad(l: seq<Cond>, n: nat)
    requires n <= |l|
    ensures Load(Uniforms(l)[..n]) == Total(l[..n], {})
  {
    if n > 0 {
      UniformLoad(l, n - 1);
      assert Uniforms(l)[..n][..n - 1] == Uniforms(l)[..n - 1];
      assert l[..n][..n - 1] == l[..n - 1];
    }
  }

  lemma InBase(L: seq<WPath>, key: TwuMap, E: ItemSet, a: ItemId, cpb: seq<Cond>, y: ItemId)
    requires WellWeighted(L) && Based(L, key, E, a, cpb) && Occurs(cpb, {y})
    ensures y in E && Before(key, y, a)
  {
    var k :| 0 <= k < |cpb| && {y} <= Elems(cpb[k].path);
    assert y in {y};
    assert y in cpb[k].path;
  }

  /** The estimate of P + Y + {a} can be read off the pattern base of a. */
  lemma BaseMeasures(g: Search, L: seq<WPath>, key: TwuMap, E: ItemSet, P: ItemSet, a: ItemId, cpb: seq<Cond>, Y: ItemSet)
    requires Level(g, L, key, E, P) && a in E && Based(L, key, E, a, cpb) && Y != {} && Y <= E
    requires forall y | y in Y :: Before(key, y, a)
    ensures EstimateIs(g, P + Y + {a}, Total(cpb, Y), Occurs(cpb, Y))
  {
    hide EstimateIs;
    assert Measured(g, L, P, a, Y);
  }

  /** Cutting and re-sorting the pattern base of a yields the next level. */
  lemma NextLevel(g: Search, L: seq<WPath>, key: TwuMap, E: ItemSet, P: ItemSet, a: ItemId, cpb: seq<Cond>,
                  keep: ItemSet, cut: seq<Cond>, key': TwuMap)
    requires Level(g, L, key, E, P) && a in E && Based(L, key, E, a, cpb) && KeptLocally(cpb, g.min, keep)
    requires Cuts(cpb, keep, cut) && Weighted(cut) && AllSorted(key', cut) && Total(cut, {}) <= Total(cpb, {})
    requires forall k | 0 <= k < |cut| :: Elems(cut[k].path) <= keep
    ensures Level(g, Uniforms(cut), key', keep, P + {a})
  {
    hide Measured, EstimateIs, CondWeight, Total, Load, Based, Cuts, Occurs, Passed;
    var L' := Uniforms(cut);
    forall x | x in keep ensures x in E && x !in P + {a} && P + {a} + keep <= g.items {
      KeptAbove(g, L, key, E, P, a, cpb, keep, x);
    }
    assert P + {a} + keep <= g.items;
    UniformsFormed(cut);
    CutLoad(L, key, E, a, cpb, cut);
    forall b | b in keep ensures Passed(L', b, {}) {
      CutPassed(cpb, keep, cut, key', b);
    }
    forall b, Z: ItemSet | b in keep && Z <= keep && (forall z | z in Z :: Before(key', z, b))
      ensures Measured(g, L', P + {a}, b, Z)
    {
      NextMeasured(g, L, key, E, P, a, cpb, keep, cut, key', b, Z);
    }
    assert forall k | 0 <= k < |L'| :: L'[k].items == cut[k].path;
  }

  lemma UniformsFormed(cut: seq<Cond>)
    requires Weighted(cut)
    ensures WellWeighted(Uniforms(cut))
  {
    forall k | 0 <= k < |cut| ensures WellFormed(Uniforms(cut)[k]) {
      assert cut[k].w >= 0 && Distinct(cut[k].path);
    }
  }

  lemma KeptAbove(g: Search, L: seq<WPath>, key: TwuMap, E: ItemSet, P: ItemSet, a: ItemId, cpb: seq<Cond>,
                  keep: ItemSet, x: ItemId)
    requires Level(g, L, key, E, P) && a in E && Based(L, key, E, a, cpb) && KeptLocally(cpb, g.min, keep) && x in keep
    ensures x in E && Before(key, x, a) && x !in P + {a} && P + {a} + keep <= g.items
  {
    hide Measured, Total, CondWeight, Occurs;
    forall y | y in keep ensures y in E {
      InBase(L, key, E, a, cpb, y);
    }
    InBase(L, key, E, a, cpb, x);
    BeforeOrder(key, a, a, a);
  }

  lemma CutLoad(L: seq<WPath>, key: TwuMap, E: ItemSet, a: ItemId, cpb: seq<Cond>, cut: seq<Cond>)
    requires WellWeighted(L) && Load(L) <= I64_MAX && Based(L, key, E, a, cpb) && Total(cut, {}) <= Total(cpb, {})
    ensures Load(Uniforms(cut)) <= I64_MAX
  {
    UniformLoad(cut, |cut|);
    assert Uniforms(cut)[..|cut|] == Uniforms(cut) && cut[..|cut|] == cut;
    CondWeightMonotone(L, a, {}, {});
  }

  lemma CutPassed(cpb: seq<Cond>, keep: ItemSet, cut: seq<Cond>, key': TwuMap, b: ItemId)
    requires Cuts(cpb, keep, cut) && AllSorted(key', cut) && b in keep && Occurs(cpb, {b})
    ensures Passed(Uniforms(cut), b, {})
  {
    UniformOccurs(key', cut, b, {});
    assert {} + {b} == {b};
    assert Occurs(cut, {b});
  }

  lemma NextMeasured(g: Search, L: seq<WPath>, key: TwuMap, E: ItemSet, P: ItemSet, a: ItemId, cpb: seq<Cond>,
                     keep: ItemSet, cut: seq<Cond>, key': TwuMap, b: ItemId, Z: ItemSet)
    requires Level(g, L, key, E, P) && a in E && Based(L, key, E, a, cpb) && KeptLocally(cpb, g.min, keep)
    requires Cuts(cpb, keep, cut) && AllSorted(key', cut) && WellWeighted(Uniforms(cut))
    requires b in keep && Z <= keep && forall z | z in Z :: Before(key', z, b)
    ensures Measured(g, Uniforms(cut), P + {a}, b, Z)
  {
    hide EstimateIs, CondWeight, Total, Load, Level, Occurs, KeptLocally, Based;
    var Y := Z + {b};
    forall y | y in Y ensures y in E && Before(key, y, a) {
      KeptAbove(g, L, key, E, P, a, cpb, keep, y);
    }
    assert b in Y;
    BaseMeasures(g, L, key, E, P, a, cpb, Y);
    UniformCondWeight(key', cut, |cut|, b, Z);
    assert Uniforms(cut)[..|cut|] == Uniforms(cut) && cut[..|cut|] == cut;
    UniformOccurs(key', cut, b, Z);
    assert P + Y + {a} == P + {a} + Z + {b};
  }

  // ----- branches

  ghost predicate Earlier(key: TwuMap, E: ItemSet, a: ItemId, later: ItemSet) {
    forall y :: y in later <==> y in E && Before(key, y, a)
  }

  /** What lies above a and heavy consists of locally kept items. */
  lemma BranchKept(g: Search, L: seq<WPath>, key: TwuMap, E: ItemSet, P: ItemSet, a: ItemId, cpb: seq<Cond>,
                   keep: ItemSet, later: ItemSet)
    requires Level(g, L, key, E, P) && a in E && Based(L, key, E, a, cpb) && KeptLocally(cpb, g.min, keep)
    requires Earlier(key, E, a, later)
    ensures Family(P + {a}, later) * Heavy(g) == Family(P + {a}, keep) * Heavy(g)
  {
    hide Measured, Based, Total, Occurs;
    assert keep <= later by {
      forall y | y in keep ensures y in later { KeptAbove(g, L, key, E, P, a, cpb, keep, y); }
    }
    forall X | X in Family(P + {a}, later) && IsHeavy(g, X) ensures X in Family(P + {a}, keep) {
      forall y | y in X && y !in P + {a} ensures y in keep {
        HeavyItemKept(g, L, key, E, P, a, cpb, later, X, y);
      }
    }
  }

  lemma HeavyItemKept(g: Search, L: seq<WPath>, key: TwuMap, E: ItemSet, P: ItemSet, a: ItemId, cpb: seq<Cond>,
                      later: ItemSet, X: ItemSet, y: ItemId)
    requires Level(g, L, key, E, P) && a in E && Based(L, key, E, a, cpb) && Earlier(key, E, a, later)
    requires P + {a} <= X <= P + {a} + later && y in X && y !in P + {a} && IsHeavy(g, X)
    ensures Occurs(cpb, {y}) && Total(cpb, {y}) >= g.min
  {
    hide EstimateIs, Measured, IsHeavy, CondWeight, Total, Occurs;
    var Y := X - (P + {a});
    assert y in Y;
    assert P + Y + {a} == X;
    BaseMeasures(g, L, key, E, P, a, cpb, Y);
    HeavyEstimate(g, X, Total(cpb, Y), Occurs(cpb, Y));
    TotalMonotone(cpb, {y}, Y);
  }

  /** The root of a's branch is heavy exactly when the header chain of a reaches the threshold, and if
      it does not, nothing in the branch is. */
  lemma BranchRoot(g: Search, L: seq<WPath>, key: TwuMap, E: ItemSet, P: ItemSet, a: ItemId, later: ItemSet)
    requires Level(g, L, key, E, P) && a in E && Earlier(key, E, a, later)
    ensures P + {a} in Heavy(g) <==> CondWeight(L, a, {}) >= g.min
    ensures CondWeight(L, a, {}) < g.min ==> Branch(P, a, later) * Heavy(g) == iset{}
  {
    hide EstimateIs, IsHeavy, CondWeight, Passed, Load;
    assert P + {} + {a} == P + {a};
    assert Measured(g, L, P, a, {});
    HeavyEstimate(g, P + {a}, CondWeight(L, a, {}), Passed(L, a, {}));
    if CondWeight(L, a, {}) < g.min {
      forall X | X in Branch(P, a, later) ensures !IsHeavy(g, X) {
        var Y := X - (P + {a});
        assert P + Y + {a} == X;
        assert Measured(g, L, P, a, Y);
        HeavyEstimate(g, X, CondWeight(L, a, Y), Passed(L, a, Y));
        CondWeightMonotone(L, a, {}, Y);
      }
    }
  }

  // ----- how many nodes are alive at once

  /** The nodes of the trees nested below a tree of at most n paths of at most m items: each level has
      no more paths than the one above, and shorter ones. */
  ghost function Nested(n: nat, m: nat): nat {
    if m == 0 then 0 else 1 + n * (m - 1) + Nested(n, m - 1)
  }

  lemma {:induction false} NestedIs(n: nat, m: nat)
    ensures 2 * Nested(n, m + 1) == (m + 1) * (2 + n * m)
  {
    if m == 0 {
      assert Nested(n, 1) == 1 + n * 0 + Nested(n, 0);
    } else {
      NestedIs(n, m - 1);
      NestedStep(n, m);
    }
  }

  lemma NestedStep(n: nat, m: nat)
    requires m > 0
    ensures 2 * (1 + n * m) + m * (2 + n * (m - 1)) == (m + 1) * (2 + n * m)
  {
  }

  ghost function Longest(db: Database): (m: nat)
    ensures forall k | 0 <= k < |db| :: |db[k].items| <= m
  {
    if db == [] then 0
    else
      var rest, n := Longest(db[..|db| - 1]), |db[|db| - 1].items|;
      if n > rest then n else rest
  }

  /** The trees of a run may need more nodes at once than 32-bit pointers can address. */
  ghost predicate PointersShort(db: Database) {
    (Longest(db) + 1) * (2 + |db| * Longest(db)) >= 2 * 0xFFFF_FFFF
  }

  /** A tree from slot `root` on reaches the last pointer, or may. */
  ghost predicate TreeCrowded(root: nat, n: nat, m: nat) {
    root + 1 + n * m >= 0xFFFF_FFFF
  }

  /** So may the trees nested above slot `next`. */
  ghost predicate Crowded(next: nat, n: nat, m: nat) {
    next + Nested(n, m) >= 0xFFFF_FFFF
  }

  ghost predicate TreeEnds(next: nat, root: nat, n: nat, m: nat) {
    next <= root + 1 + n * m
  }

  lemma CrowdedAbove(saved: nat, next: nat, n: nat, m: nat)
    requires m > 0
    ensures TreeCrowded(saved, n, m - 1) ==> Crowded(saved, n, m)
    ensures TreeEnds(next, saved, n, m - 1) && Crowded(next, n, m - 1) ==> Crowded(saved, n, m)
  {
  }

  lemma CrowdedMore(root: nat, n: nat, n': nat, m: nat)
    requires n <= n' && TreeCrowded(root, n, m)
    ensures TreeCrowded(root, n', m)
  {
    MoreTimes(n, n', m);
  }

  lemma CrowdedRun(db: Database, next: nat)
    ensures TreeCrowded(0, |db|, Longest(db)) ==> PointersShort(db)
    ensures TreeEnds(next, 0, |db|, Longest(db)) && Crowded(next, |db|, Longest(db)) ==> PointersShort(db)
  {
    NestedIs(|db|, Longest(db));
  }

  /** A tree of n paths and the first items of one more does not reach further than n + 1 paths may. */
  lemma TreeEndsAt(root: nat, paths: seq<seq<ItemId>>, weights: seq<int>, L: seq<WPath>, n: nat, m: nat)
    requires TrieOf(paths, weights, L) && Within(L, n, m)
    ensures TreeEnds(root + |paths|, root, n, m)
  {
    TrieSize(paths, weights, L, n, m);
  }

  lemma InsertRoom(root: nat, paths: seq<seq<ItemId>>, weights: seq<int>, L: seq<WPath>, l: WPath, k: nat, n: nat, m: nat)
    requires Within(L, n, m) && k <= |l.items| <= m && |l.ws| == |l.items| && TrieOf(paths, weights, L + [FirstItems(l, k)])
    ensures root + |paths| >= 0xFFFF_FFFF ==> TreeCrowded(root, n + 1, m)
  {
    hide TrieOf;
    assert Within(L + [FirstItems(l, k)], n + 1, m);
    TrieSize(paths, weights, L + [FirstItems(l, k)], n + 1, m);
  }

  lemma WithinSnoc(L: seq<WPath>, l: WPath, n: nat, m: nat)
    requires Within(L, n, m) && |l.items| <= m
    ensures Within(L + [l], n + 1, m)
  {
  }

  /** A path that has an item of the tree is not empty. */
  lemma LevelDepth(g: Search, L: seq<WPath>, key: TwuMap, E: ItemSet, P: ItemSet, a: ItemId, n: nat, m: nat)
    requires Level(g, L, key, E, P) && a in E && Within(L, n, m)
    ensures m > 0
  {
    assert Passed(L, a, {});
    var k :| 0 <= k < |L| && PathMatches(L[k], a, {});
    assert L[k].items != [];
  }

  // ----- listing candidates in a loop

  lemma ListsLoopStart(P: ItemSet, items: seq<ItemId>, W: iset<ItemSet>)
    ensures Lists([], Covered(P, items, 0) * W)
  {
    assert Covered(P, items, 0) * W == iset{};
  }

  lemma ListsLoopStep(P: ItemSet, items: seq<ItemId>, i: nat, W: iset<ItemSet>, found: seq<seq<ItemId>>, more: seq<seq<ItemId>>)
    requires i < |items| && Distinct(items) && P !! Elems(items)
    requires Lists(found, Covered(P, items, i) * W)
    requires Lists(more, Branch(P, items[i], Elems(items[i + 1..])) * W)
    ensures Lists(found + more, Covered(P, items, i + 1) * W)
  {
    hide Lists, Branch, Covered;
    CoveredStep(P, items, i);
    var F, G := Covered(P, items, i), Branch(P, items[i], Elems(items[i + 1..]));
    ListsConcat(found, F * W, more, G * W);
    assert F * W + G * W == (F + G) * W;
  }

  lemma ListsBranch(W: iset<ItemSet>, prefix: seq<ItemId>, x: ItemId, later: ItemSet, deeper: seq<seq<ItemId>>)
    requires Distinct(prefix) && x !in prefix && Elems(prefix) + {x} in W
    requires Lists(deeper, Family(Elems(prefix) + {x}, later) * W)
    ensures Lists([prefix + [x]] + deeper, Branch(Elems(prefix), x, later) * W)
  {
    hide Lists;
    var P := Elems(prefix);
    BranchSplit(P, x, later);
    assert Elems(prefix + [x]) == P + {x};
    ListsSingle(prefix + [x]);
    var F, G := iset{P + {x}}, Family(P + {x}, later);
    assert F * W == F;
    ListsConcat([prefix + [x]], F * W, deeper, G * W);
    assert F * W + G * W == (F + G) * W;
  }

  lemma ListsNothing(F: iset<ItemSet>)
    requires F == iset{}
    ensures Lists([], F)
  {
  }

  ghost predicate Fits32(items: ItemSet) {
    forall x | x in items :: x < TWO_32
  }

  lemma {:induction false} LoadNonNegative(L: seq<WPath>)
    requires WellWeighted(L)
    ensures Load(L) >= 0
  {
    if L != [] {
      assert WellFormed(L[|L| - 1]);
      LoadNonNegative(L[..|L| - 1]);
    }
  }

  lemma LevelPaths(g: Search, L: seq<WPath>, key: TwuMap, E: ItemSet, P: ItemSet)
    requires Level(g, L, key, E, P)
    ensures WellWeighted(g.paths) && WellWeighted(L) && Load(L) <= I64_MAX && P !! E
    ensures forall k | 0 <= k < |L| :: SortedPath(key, L[k].items) && Elems(L[k].items) <= E
  {
  }

  lemma NewPrefix(g: Search, L: seq<WPath>, key: TwuMap, E: ItemSet, prefix: seq<ItemId>, item: ItemId)
    requires Level(g, L, key, E, Elems(prefix)) && item in E && Distinct(prefix)
    ensures Distinct(prefix + [item]) && item !in prefix && Elems(prefix + [item]) == Elems(prefix) + {item}
  {
    assert item !in Elems(prefix);
  }

  lemma SortedPosition(key: TwuMap, s: seq<ItemId>, k: nat, n: nat)
    requires SortedPath(key, s) && k < |s| && n < |s| && Before(key, s[k], s[n])
    ensures k < n
  {
    BeforeOrder(key, s[k], s[n], s[k]);
  }

  /** Walking an order backwards, what is still to come are the items before the current one. */
  lemma ReversedOrder(key: TwuMap, P: ItemSet, order: seq<ItemId>)
    requires P !! Elems(order) && SortedPath(key, order)
    ensures var rev := Reverse(order);
            && Distinct(rev) && Elems(rev) == Elems(order) && P !! Elems(rev)
            && forall i | 0 <= i < |order| :: rev[i] in order && Earlier(key, Elems(order), rev[i], Elems(rev[i + 1..]))
  {
    var rev := Reverse(order);
    SortedDistinct(key, order);
    forall x ensures x in order <==> x in rev {
      if x in order {
        var k :| 0 <= k < |order| && order[k] == x;
        assert rev[|order| - 1 - k] == x;
      }
    }
    forall i, y | 0 <= i < |order| ensures y in rev[i + 1..] <==> y in order && Before(key, y, rev[i]) {
      if y in rev[i + 1..] {
        var k :| 0 <= k < |rev[i + 1..]| && rev[i + 1..][k] == y;
        assert y == order[|order| - 2 - i - k];
      }
      if y in order && Before(key, y, rev[i]) {
        var k :| 0 <= k < |order| && order[k] == y;
        var n := |order| - 1 - i;
        SortedPosition(key, order, k, n);
        assert rev[i + 1..][n - 1 - k] == y;
      }
    }
  }

  lemma NoPrefix()
    ensures Elems<ItemId>([]) == {} && Distinct<ItemId>([])
  {
  }

  lemma NothingDeeper(g: Search, Q: ItemSet, later: ItemSet)
    requires WellWeighted(g.paths) && Family(Q, later) * Heavy(g) == Family(Q, {}) * Heavy(g)
    ensures Lists([], Family(Q, later) * Heavy(g))
  {
    assert Family(Q, {}) == iset{};
    ListsNothing(Family(Q, later) * Heavy(g));
  }

  lemma KeptFit(db: Database, min: int, twu: TwuMap)
    requires IsTwuFilter(db, min, twu) && forall k | 0 <= k < |db| :: Fits32(ItemsOf(db[k].items))
    ensures Fits32(twu.Keys)
  {
    forall x | x in twu ensures x < TWO_32 {
      var k :| 0 <= k < |db| && {x} <= ItemsOf(db[k].items);
      assert Fits32(ItemsOf(db[k].items)) && x in {x};
    }
  }
}
